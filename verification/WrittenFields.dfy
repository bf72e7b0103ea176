/** What a write stores and a board shows, field by field, from what was sent and what is stored. */
module WrittenFields {
  import opened Core
  import opened ConsensusTypes
  import opened CatalogueTypes
  import opened Windows
  import opened WindowProperties
  import opened Clusters
  import opened Tolerance
  import opened Spelling
  import opened Namespace
  import opened TargetSeed
  import opened TimerCatalogue
  import TimerSeed
  import Resolve
  import Ladder

  // ---------------------------------------------------------------- targets

  /** A new target is what was sent, trimmed, active, with its flag. */
  lemma CreateStoresWhatWasSent(text: Text, id: TargetId, req: CreateRequest)
    requires PlanCreate(text, id, req).Ok?
    ensures
      var t := PlanCreate(text, id, req).value.target;
      && t.id == id && t.name == text.trim(req.name) && t.nameNorm == text.normalise(t.name)
      && t.zone == text.trim(req.zone) && t.zoneNorm == text.normalise(t.zone)
      && t.expansion == req.expansion && t.category == req.category
      && t.isQuakeTarget == req.isQuakeTarget && t.state == Active
  {
  }

  /** What a field not sent keeps and a field sent becomes. */
  function SentOr<T>(sent: Option<T>, was: T): T {
    match sent
    case Some(value) => value
    case None => was
  }

  /** An update changes the fields sent, the names trimmed and normalised again, and keeps the others as read. */
  lemma UpdateStoresWhatWasSent(text: Text, id: TargetId, current: Listed, req: UpdateRequest)
    requires PlanUpdate(text, id, current, req).Ok?
    ensures
      var was, plan := current.target, PlanUpdate(text, id, current, req).value;
      var t := plan.target;
      && t.id == id && t.name == text.trim(SentOr(req.name, was.name)) && t.nameNorm == text.normalise(t.name)
      && t.zone == text.trim(SentOr(req.zone, was.zone)) && t.zoneNorm == text.normalise(t.zone)
      && t.expansion == SentOr(req.expansion, was.expansion) && t.category == SentOr(req.category, was.category)
      && t.isQuakeTarget == SentOr(req.isQuakeTarget, was.isQuakeTarget)
      && (req.state == None ==> t.state == was.state)
      && (req.state.Some? ==> t.state == (if req.state.value == "active" then Active else Retired))
      && (req.state.Some? ==> req.state.value == "active" || req.state.value == "retired")
      && (req.aliases == None ==> plan.aliases == current.aliases)
      && (req.aliases.Some? ==>
            forall a :: a in plan.aliases ==> exists raw :: raw in req.aliases.value && a == text.trim(raw))
  {
    if req.aliases.Some? {
      CleanKeepsEverySpelling(text, req.aliases.value, |req.aliases.value|);
    }
  }

  /** The seed adds a target under a spelling nobody has: the identity shipped, a quake target unless immune. */
  lemma SeedStoresTheIdentity(text: Text, byName: map<string, TargetId>, s: Seeding, want: Embedded)
    requires
      var norm := text.normalise(text.trim(want.name));
      norm !in byName && norm !in s.owner && Sow(text, byName, s, want).Ok?
    ensures
      var after := Sow(text, byName, s, want).value;
      && s.names.nextId in after.names.targets
      && after.names.targets[s.names.nextId]
         == Target(
              s.names.nextId, text.trim(want.name), text.normalise(text.trim(want.name)), text.trim(want.zone),
              text.normalise(text.trim(want.zone)), want.expansion, want.category, !want.quakeImmune, Active)
  {
    var f := ValidateIdentity(text, want.name, want.zone, want.expansion, want.category).value;
    var target := Fresh(s.names, f, want.quakeImmune);
    AliasesLeaveTargets(text, AddTarget(s, target), target.id, want.aliases, |want.aliases|);
  }

  lemma {:induction false} AliasesLeaveTargets(text: Text, s: Seeding, id: TargetId, aliases: seq<string>, n: nat)
    requires n <= |aliases|
    ensures TopUp(text, s, id, aliases, n).names.targets == s.names.targets
  {
    if n == 0 {
    } else {
      AliasesLeaveTargets(text, s, id, aliases, n - 1);
    }
  }

  /** Nobody else's spelling, in the tables themselves. */
  ghost predicate Nobodys(names: Names, self: TargetId, s: string) {
    forall id :: id != self ==> !Resolve.Owns(names, id, s)
  }

  /** What is claimed is what somebody else owns. */
  lemma ClaimedExactly(text: Text, names: Names, self: TargetId, s: string)
    requires Resolve.Normalised(text, names)
    ensures s in Claimed(names, self) <==> !Nobodys(names, self, s)
  {
    if s in Claimed(names, self) {
      var id :| id != self && id in names.targets
                && (names.targets[id].nameNorm == s || (s in names.aliases && names.aliases[s].target == id));
      assert Resolve.Owns(names, id, s);
    }
  }

  /** Names and aliases pass the namespace check exactly when they are pairwise different and nobody else's. */
  lemma AdmittedExactly(text: Text, names: Names, self: TargetId, nameNorm: string, aliases: seq<string>)
    requires Resolve.Normalised(text, names)
    ensures FirstClash(text, names, self, nameNorm, aliases).None? <==>
              && Nobodys(names, self, nameNorm)
              && (forall i :: 0 <= i < |aliases| ==>
                    && Nobodys(names, self, Norms(text, aliases)[i]) && Norms(text, aliases)[i] != nameNorm)
              && forall i, j :: 0 <= i < j < |aliases| ==> Norms(text, aliases)[i] != Norms(text, aliases)[j]
  {
    ClashesExactlyWhenNotFree(text, names, self, nameNorm, aliases);
    ClaimedExactly(text, names, self, nameNorm);
    forall i | 0 <= i < |aliases|
      ensures Norms(text, aliases)[i] in Claimed(names, self) <==> !Nobodys(names, self, Norms(text, aliases)[i])
    {
      ClaimedExactly(text, names, self, Norms(text, aliases)[i]);
    }
  }

  // ---------------------------------------------------------------- timers

  /** The stored window that counts for a cell: its circle's override, or else the catalogue's on its server. */
  ghost predicate Counts(db: Tables, c: CircleId, t: TargetId, s: Stored)
    requires c in db.circles
  {
    var server := db.circles[c].server;
    if (c, t) in db.overrides then s == db.overrides[(c, t)]
    else (t, server) in db.timers && s == db.timers[(t, server)]
  }

  /** A board shows the window that counts, offsets and grace as stored. */
  lemma BoardShowsWhatCounts(
    targets: Targets, db: Tables, c: CircleId, t: TargetId, s: Stored, died: Micros, now: Micros
  )
    requires c in db.circles && t in targets && Counts(db, c, t, s) && Checks(s) && s.kind != Unknown
    ensures
      var open := died + s.openOffset.value * 1_000_000;
      var close := if s.kind == Fixed then open + s.grace * 1_000_000 else died + s.closeOffset.value * 1_000_000;
      var timer := InForce(targets, db, c, t);
      var (status, w) := Project(timer, Some(died), None, now);
      && timer.isQuakeTarget == targets[t].isQuakeTarget
      && status == (if now < open then PreWindow else if now <= close then InWindow else Overdue)
      && w.kind == s.kind && w.openAt == Some(open) && w.closeAt == Some(close)
  {
    StoredWindowExactly(s, targets[t].isQuakeTarget, died, now);
  }

  /** With nothing stored there is no window, the widest tolerance, and still the target's flag. */
  lemma UnseededIsHonest(targets: Targets, db: Tables, c: CircleId, t: TargetId, died: Micros, now: Micros)
    requires c in db.circles && t in targets && forall s :: !Counts(db, c, t, s)
    ensures
      var timer := InForce(targets, db, c, t);
      && timer.isQuakeTarget == targets[t].isQuakeTarget
      && Project(timer, Some(died), None, now) == (NoTimer, Window(Unknown, None, None, None, None, None, None))
      && IsTolerance(timer, 1800)
  {
    var server := db.circles[c].server;
    if (c, t) in db.overrides {
      assert Counts(db, c, t, db.overrides[(c, t)]);
    } else if (t, server) in db.timers {
      assert Counts(db, c, t, db.timers[(t, server)]);
    }
  }

  // ---------------------------------------------------------------- rows of a timer seed

  /** A row is of the target its id names or, without one, of the owner of its spelling; its window is as sent. */
  lemma SeedRowExactly(
    text: Text, names: Names, targets: seq<Listed>, t: TimerSeed.SeedTimer, id: TargetId
  )
    requires Resolve.Normalised(text, names) && Resolve.OneOwner(names) && Resolve.Loads(names, targets)
    requires
      if t.targetId.Some? then t.targetId == Some(id) && id in names.targets
      else text.normalise(t.targetName) != "" && Resolve.Owns(names, id, text.normalise(t.targetName))
    ensures
      var row := TimerSeed.ResolveRow(text, targets, names.targets, t);
      && (row.Ok? <==> t.server in ["blue", "green", "red"] && Validate(t.window).Ok?)
      && (row.Ok? ==> row.value == TimerSeed.Row((id, t.server), Validate(t.window).value))
  {
    if t.targetId.None? {
      Ladder.OwnedExactly(text, names, targets, id, t.targetName);
    }
  }
}
