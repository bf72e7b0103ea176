/** The ladder that turns what somebody typed into one target, or into an ambiguity. */
module Resolve {
  import opened Core
  import opened CatalogueTypes

  datatype MatchKind =
    | MatchId
    | MatchName
    | MatchNameNormalised
    | MatchAlias
    | MatchAliasNormalised
    | MatchPrefix
    | MatchSubstring

  /** A target as a request refers to it: by id or by name. */
  datatype Ref = Ref(id: Option<TargetId>, name: string)

  /** Strongest first; the order is the rule. An id is not a rung: it never reads the names. */
  const RUNGS: seq<MatchKind> :=
    [MatchName, MatchNameNormalised, MatchAlias, MatchAliasNormalised, MatchPrefix, MatchSubstring]

  datatype Failure =
    | BothSent
    | NeitherSent
    | NoSuchId
    | NoLetters
    | NothingMatches
    | Ambiguous(hits: seq<Listed>)

  datatype Resolution = Resolution(target: Target, kind: MatchKind)

  predicate HasPrefix(s: string, prefix: string) { prefix <= s }

  predicate OccursAt(s: string, part: string, i: nat) {
    i + |part| <= |s| && s[i..i + |part|] == part
  }

  predicate Contains(s: string, part: string) {
    exists i: nat | i <= |s| :: OccursAt(s, part, i)
  }

  predicate Live(t: Target) { t.state == Active }

  predicate Matches(text: Text, kind: MatchKind, t: Listed, name: string, norm: string) {
    match kind
    case MatchId => false
    case MatchName => t.target.name == name
    case MatchNameNormalised => t.target.nameNorm == norm
    case MatchAlias => name in t.aliases
    case MatchAliasNormalised => norm in Norms(text, t.aliases)
    case MatchPrefix =>
      && Live(t.target)
      && (HasPrefix(t.target.nameNorm, norm) || exists a | a in Norms(text, t.aliases) :: HasPrefix(a, norm))
    case MatchSubstring =>
      && Live(t.target)
      && (Contains(t.target.nameNorm, norm) || exists a | a in Norms(text, t.aliases) :: Contains(a, norm))
  }

  function Hits(text: Text, kind: MatchKind, targets: seq<Listed>, name: string, norm: string): seq<Listed> {
    Filter((t: Listed) => Matches(text, kind, t, name, norm), targets)
  }

  /** The first rung anything matches decides; a tie on it is never fallen through. */
  function Climb(
    text: Text, rungs: seq<MatchKind>, targets: seq<Listed>, name: string, norm: string
  ): Result<Resolution, Failure> {
    if rungs == [] then Err(NothingMatches)
    else
      var hits := Hits(text, rungs[0], targets, name, norm);
      if |hits| == 0 then Climb(text, rungs[1..], targets, name, norm)
      else if |hits| == 1 then Ok(Resolution(hits[0].target, rungs[0]))
      else Err(Ambiguous(hits))
  }

  function ResolveIn(text: Text, targets: seq<Listed>, name: string): Result<Resolution, Failure> {
    var norm := text.normalise(name);
    if norm == "" then Err(NoLetters) else Climb(text, RUNGS, targets, name, norm)
  }

  /** Every target matching on this rung. */
  method Collect(text: Text, kind: MatchKind, targets: seq<Listed>, name: string, norm: string)
    returns (hits: seq<Listed>)
    ensures hits == Hits(text, kind, targets, name, norm)
  {
    hits := [];
    for j := 0 to |targets|
      invariant hits == Hits(text, kind, targets[..j], name, norm)
    {
      FilterAppend((t: Listed) => Matches(text, kind, t, name, norm), targets[..j], [targets[j]]);
      assert targets[..j + 1] == targets[..j] + [targets[j]];
      if Matches(text, kind, targets[j], name, norm) {
        hits := hits + [targets[j]];
      }
    }
    assert targets[..|targets|] == targets;
  }

  method ResolveName(text: Text, targets: seq<Listed>, name: string) returns (r: Result<Resolution, Failure>)
    ensures r == ResolveIn(text, targets, name)
  {
    var norm := text.normalise(name);
    if norm == "" {
      return Err(NoLetters);
    }
    for i := 0 to |RUNGS|
      invariant Climb(text, RUNGS[i..], targets, name, norm) == Climb(text, RUNGS, targets, name, norm)
    {
      var kind := RUNGS[i];
      assert RUNGS[i..][1..] == RUNGS[i + 1..];
      var hits := Collect(text, kind, targets, name, norm);
      if |hits| == 1 {
        return Ok(Resolution(hits[0].target, kind));
      }
      if |hits| > 1 {
        return Err(Ambiguous(hits));
      }
    }
    return Err(NothingMatches);
  }

  // ---------------------------------------------------------------- agreement with the tables

  /** `id` is spelled `s`: by its name or by one of its aliases. */
  predicate Owns(names: Names, id: TargetId, s: string) {
    id in names.targets && (names.targets[id].nameNorm == s || (s in names.aliases && names.aliases[s].target == id))
  }

  /** One namespace: no spelling belongs to two targets. */
  ghost predicate OneOwner(names: Names) {
    forall s, i, j :: Owns(names, i, s) && Owns(names, j, s) ==> i == j
  }

  /** The stored normal forms are the normal forms, and every alias has its target. */
  ghost predicate Normalised(text: Text, names: Names) {
    && (forall id :: id in names.targets ==>
          && names.targets[id].id == id && id < names.nextId
          && names.targets[id].nameNorm == text.normalise(names.targets[id].name))
    && forall s :: s in names.aliases ==>
       names.aliases[s].target in names.targets && text.normalise(names.aliases[s].alias) == s
  }

  ghost predicate ListedFrom(names: Names, t: Listed) {
    && t.target.id in names.targets && names.targets[t.target.id] == t.target
    && forall a :: a in t.aliases <==> exists s :: s in names.aliases && names.aliases[s] == Alias(t.target.id, a)
  }

  /** `targets` is the catalogue read whole, each target once, in whatever order. */
  ghost predicate Loads(names: Names, targets: seq<Listed>) {
    && (forall i :: 0 <= i < |targets| ==> ListedFrom(names, targets[i]))
    && (forall i, j :: 0 <= i < j < |targets| ==> targets[i].target.id != targets[j].target.id)
    && (forall id :: id in names.targets ==> exists i :: 0 <= i < |targets| && targets[i].target.id == id)
  }

  /** On the exact rungs only an owner of the spelling can match. */
  lemma ExactMatchIsOwner(text: Text, names: Names, t: Listed, name: string, kind: MatchKind)
    requires Normalised(text, names) && ListedFrom(names, t)
    requires kind.MatchName? || kind.MatchNameNormalised? || kind.MatchAlias? || kind.MatchAliasNormalised?
    requires Matches(text, kind, t, name, text.normalise(name))
    ensures Owns(names, t.target.id, text.normalise(name))
  {
    var norm := text.normalise(name);
    if kind.MatchAlias? {
      var s :| s in names.aliases && names.aliases[s] == Alias(t.target.id, name);
      assert s == norm;
    } else if kind.MatchAliasNormalised? {
      var i :| 0 <= i < |t.aliases| && Norms(text, t.aliases)[i] == norm;
      assert t.aliases[i] in t.aliases;
      var s :| s in names.aliases && names.aliases[s] == Alias(t.target.id, t.aliases[i]);
      assert s == norm;
    }
  }

  /** The owner matches one of the normalised rungs. */
  lemma OwnerMatches(text: Text, names: Names, t: Listed, name: string)
    requires Normalised(text, names) && ListedFrom(names, t)
    requires Owns(names, t.target.id, text.normalise(name))
    ensures Matches(text, MatchNameNormalised, t, name, text.normalise(name))
         || Matches(text, MatchAliasNormalised, t, name, text.normalise(name))
  {
    var norm := text.normalise(name);
    if t.target.nameNorm != norm {
      var a := names.aliases[norm].alias;
      assert names.aliases[norm] == Alias(t.target.id, a);
      assert a in t.aliases;
      var i :| 0 <= i < |t.aliases| && t.aliases[i] == a;
      assert Norms(text, t.aliases)[i] == norm;
    }
  }

  /** Nobody, or the owner alone, is hit on an exact rung. */
  lemma ExactHits(text: Text, names: Names, targets: seq<Listed>, k: nat, name: string, kind: MatchKind)
    requires Normalised(text, names) && OneOwner(names) && Loads(names, targets)
    requires k < |targets| && Owns(names, targets[k].target.id, text.normalise(name))
    requires kind.MatchName? || kind.MatchNameNormalised? || kind.MatchAlias? || kind.MatchAliasNormalised?
    ensures Hits(text, kind, targets, name, text.normalise(name)) ==
            if Matches(text, kind, targets[k], name, text.normalise(name)) then [targets[k]] else []
  {
    var norm := text.normalise(name);
    var p := (t: Listed) => Matches(text, kind, t, name, norm);
    forall i | 0 <= i < |targets| && i != k ensures !p(targets[i]) {
      assert targets[Min(i, k)].target.id != targets[Max(i, k)].target.id;
      if p(targets[i]) {
        ExactMatchIsOwner(text, names, targets[i], name, kind);
      }
    }
    OnlyOne(p, targets, k);
  }

  lemma {:induction false} OnlyOne(p: Listed -> bool, s: seq<Listed>, k: nat)
    requires k < |s| && forall i :: 0 <= i < |s| && i != k ==> !p(s[i])
    ensures Filter(p, s) == if p(s[k]) then [s[k]] else []
  {
    if k == 0 {
      NoneOf(p, s[1..]);
    } else {
      OnlyOne(p, s[1..], k - 1);
    }
  }

  lemma {:induction false} NoneOf(p: Listed -> bool, s: seq<Listed>)
    requires forall i :: 0 <= i < |s| ==> !p(s[i])
    ensures Filter(p, s) == []
  {
    if s == [] {
    } else {
      NoneOf(p, s[1..]);
    }
  }

  /**
   * A registered spelling, however it is typed, resolves to its owner on one of the four exact rungs:
   * never ambiguously, never to a look-alike, and whatever order the catalogue was read in.
   */
  lemma RegisteredSpellingResolves(text: Text, names: Names, targets: seq<Listed>, id: TargetId, name: string)
    requires Normalised(text, names) && OneOwner(names) && Loads(names, targets)
    requires text.normalise(name) != "" && Owns(names, id, text.normalise(name))
    ensures
      var r := ResolveIn(text, targets, name);
      && r.Ok? && r.value.target == names.targets[id]
      && (|| r.value.kind.MatchName? || r.value.kind.MatchNameNormalised?
          || r.value.kind.MatchAlias? || r.value.kind.MatchAliasNormalised?)
  {
    var norm := text.normalise(name);
    var k :| 0 <= k < |targets| && targets[k].target.id == id;
    assert ListedFrom(names, targets[k]);
    ExactHits(text, names, targets, k, name, MatchName);
    ExactHits(text, names, targets, k, name, MatchNameNormalised);
    ExactHits(text, names, targets, k, name, MatchAlias);
    ExactHits(text, names, targets, k, name, MatchAliasNormalised);
    OwnerMatches(text, names, targets[k], name);
    assert RUNGS[1..] == [MatchNameNormalised, MatchAlias, MatchAliasNormalised, MatchPrefix, MatchSubstring];
    assert RUNGS[1..][1..] == [MatchAlias, MatchAliasNormalised, MatchPrefix, MatchSubstring];
    assert RUNGS[1..][1..][1..] == [MatchAliasNormalised, MatchPrefix, MatchSubstring];
    ClimbPast(text, RUNGS, targets, name, norm);
    ClimbPast(text, RUNGS[1..], targets, name, norm);
    ClimbPast(text, RUNGS[1..][1..], targets, name, norm);
    ClimbPast(text, RUNGS[1..][1..][1..], targets, name, norm);
  }

  /** Whatever the ladder answers with is a target it was given. */
  lemma ResolvedIsListed(text: Text, targets: seq<Listed>, name: string)
    requires ResolveIn(text, targets, name).Ok?
    ensures exists i :: 0 <= i < |targets| && targets[i].target == ResolveIn(text, targets, name).value.target
  {
    ClimbedIsListed(text, RUNGS, targets, name, text.normalise(name));
  }

  lemma {:induction false} ClimbedIsListed(
    text: Text, rungs: seq<MatchKind>, targets: seq<Listed>, name: string, norm: string
  )
    requires Climb(text, rungs, targets, name, norm).Ok?
    ensures exists i :: 0 <= i < |targets| && targets[i].target == Climb(text, rungs, targets, name, norm).value.target
  {
    var hits := Hits(text, rungs[0], targets, name, norm);
    if |hits| == 0 {
      ClimbedIsListed(text, rungs[1..], targets, name, norm);
    } else {
      assert hits[0] in targets;
    }
  }

  lemma ClimbPast(text: Text, rungs: seq<MatchKind>, targets: seq<Listed>, name: string, norm: string)
    requires rungs != []
    ensures
      var hits := Hits(text, rungs[0], targets, name, norm);
      && (hits == [] ==> Climb(text, rungs, targets, name, norm) == Climb(text, rungs[1..], targets, name, norm))
      && (|hits| == 1 ==> Climb(text, rungs, targets, name, norm) == Ok(Resolution(hits[0].target, rungs[0])))
  {
  }

  /** `more` is `names` with targets and aliases added. */
  ghost predicate Grows(names: Names, more: Names) {
    && (forall id :: id in names.targets ==> id in more.targets && more.targets[id] == names.targets[id])
    && (forall s :: s in names.aliases ==> s in more.aliases && more.aliases[s] == names.aliases[s])
  }

  /** What a spelling resolves to is not changed by anything added later. */
  lemma AdditionsDoNotSteal(
    text: Text, names: Names, more: Names, targets: seq<Listed>, targets': seq<Listed>, id: TargetId, name: string
  )
    requires Normalised(text, names) && OneOwner(names) && Loads(names, targets)
    requires Normalised(text, more) && OneOwner(more) && Loads(more, targets')
    requires Grows(names, more)
    requires text.normalise(name) != "" && Owns(names, id, text.normalise(name))
    ensures ResolveIn(text, targets, name).Ok? && ResolveIn(text, targets', name).Ok?
    ensures ResolveIn(text, targets', name).value.target == ResolveIn(text, targets, name).value.target
  {
    RegisteredSpellingResolves(text, names, targets, id, name);
    RegisteredSpellingResolves(text, more, targets', id, name);
  }
}
