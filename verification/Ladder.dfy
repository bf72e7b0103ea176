/** What a name comes to, said of the tables alone: by the spellings owned, started and contained. */
module Ladder {
  import opened Core
  import opened CatalogueTypes
  import opened Resolve

  // ---------------------------------------------------------------- the exact rungs

  /** The stored spelling of one of its aliases is what was typed, to the letter. */
  ghost predicate HasAlias(names: Names, id: TargetId, name: string) {
    exists s :: s in names.aliases && names.aliases[s] == Alias(id, name)
  }

  /** How an owner is found: its name or an alias as typed, before the same names by their normal form. */
  ghost function OwnersKind(names: Names, id: TargetId, name: string, norm: string): MatchKind
    requires id in names.targets
  {
    if names.targets[id].name == name then MatchName
    else if names.targets[id].nameNorm == norm then MatchNameNormalised
    else if HasAlias(names, id, name) then MatchAlias
    else MatchAliasNormalised
  }

  /** The ladder, rung by rung. */
  lemma Rungs(text: Text, targets: seq<Listed>, name: string, norm: string)
    requires norm == text.normalise(name) != ""
    ensures
      var r := ResolveIn(text, targets, name);
      var exact := Hits(text, MatchName, targets, name, norm);
      var normal := Hits(text, MatchNameNormalised, targets, name, norm);
      var aliased := Hits(text, MatchAlias, targets, name, norm);
      var alias := Hits(text, MatchAliasNormalised, targets, name, norm);
      var prefix := Hits(text, MatchPrefix, targets, name, norm);
      var within := Hits(text, MatchSubstring, targets, name, norm);
      r == if exact != [] then Answer(exact, MatchName)
           else if normal != [] then Answer(normal, MatchNameNormalised)
           else if aliased != [] then Answer(aliased, MatchAlias)
           else if alias != [] then Answer(alias, MatchAliasNormalised)
           else if prefix != [] then Answer(prefix, MatchPrefix)
           else if within != [] then Answer(within, MatchSubstring)
           else Err(NothingMatches)
  {
    var r2, r3, r4, r5, r6 := RUNGS[1..], RUNGS[2..], RUNGS[3..], RUNGS[4..], RUNGS[5..];
    assert r2 == [MatchNameNormalised, MatchAlias, MatchAliasNormalised, MatchPrefix, MatchSubstring];
    assert r3 == r2[1..] == [MatchAlias, MatchAliasNormalised, MatchPrefix, MatchSubstring];
    assert r4 == r3[1..] == [MatchAliasNormalised, MatchPrefix, MatchSubstring];
    assert r5 == r4[1..] == [MatchPrefix, MatchSubstring];
    assert r6 == r5[1..] == [MatchSubstring];
    assert r6[1..] == [];
    ClimbStep(text, RUNGS, targets, name, norm);
    ClimbStep(text, r2, targets, name, norm);
    ClimbStep(text, r3, targets, name, norm);
    ClimbStep(text, r4, targets, name, norm);
    ClimbStep(text, r5, targets, name, norm);
    ClimbStep(text, r6, targets, name, norm);
  }

  /** One hit is the answer, several are an ambiguity. */
  function Answer(hits: seq<Listed>, kind: MatchKind): Result<Resolution, Failure>
    requires hits != []
  {
    if |hits| == 1 then Ok(Resolution(hits[0].target, kind)) else Err(Ambiguous(hits))
  }

  lemma ClimbStep(text: Text, rungs: seq<MatchKind>, targets: seq<Listed>, name: string, norm: string)
    requires rungs != []
    ensures
      var hits := Hits(text, rungs[0], targets, name, norm);
      Climb(text, rungs, targets, name, norm)
      == if hits == [] then Climb(text, rungs[1..], targets, name, norm) else Answer(hits, rungs[0])
  {
  }

  /** On each exact rung the owner alone is hit, or nobody. */
  ghost predicate OwnerOnly(text: Text, targets: seq<Listed>, t: Listed, name: string, norm: string, kind: MatchKind) {
    Hits(text, kind, targets, name, norm) == if Matches(text, kind, t, name, norm) then [t] else []
  }

  lemma OwnerAnswers(text: Text, targets: seq<Listed>, t: Listed, name: string, norm: string)
    requires norm == text.normalise(name) != ""
    requires OwnerOnly(text, targets, t, name, norm, MatchName)
    requires OwnerOnly(text, targets, t, name, norm, MatchNameNormalised)
    requires OwnerOnly(text, targets, t, name, norm, MatchAlias)
    requires OwnerOnly(text, targets, t, name, norm, MatchAliasNormalised)
    requires t.target.nameNorm == norm || norm in Norms(text, t.aliases)
    ensures
      ResolveIn(text, targets, name)
      == Ok(Resolution(
              t.target,
              if t.target.name == name then MatchName
              else if t.target.nameNorm == norm then MatchNameNormalised
              else if name in t.aliases then MatchAlias
              else MatchAliasNormalised))
  {
    Rungs(text, targets, name, norm);
  }

  /** An owned spelling resolves to its owner, and says on which of the four exact rungs. */
  lemma OwnedExactly(text: Text, names: Names, targets: seq<Listed>, id: TargetId, name: string)
    requires Normalised(text, names) && OneOwner(names) && Loads(names, targets)
    requires text.normalise(name) != "" && Owns(names, id, text.normalise(name))
    ensures ResolveIn(text, targets, name)
            == Ok(Resolution(names.targets[id], OwnersKind(names, id, name, text.normalise(name))))
  {
    var k :| 0 <= k < |targets| && targets[k].target.id == id;
    assert ListedFrom(names, targets[k]);
    ExactHits(text, names, targets, k, name, MatchName);
    ExactHits(text, names, targets, k, name, MatchNameNormalised);
    ExactHits(text, names, targets, k, name, MatchAlias);
    ExactHits(text, names, targets, k, name, MatchAliasNormalised);
    OwnerMatches(text, names, targets[k], name);
    OwnerAnswers(text, targets, targets[k], name, text.normalise(name));
    ListedAlias(names, targets[k], name);
  }

  lemma ListedAlias(names: Names, t: Listed, name: string)
    requires ListedFrom(names, t)
    ensures name in t.aliases <==> HasAlias(names, t.target.id, name)
  {
  }

  /** What has nothing in it once normalised is refused before the ladder, and nothing else is refused so. */
  lemma NothingTyped(text: Text, targets: seq<Listed>, name: string)
    ensures ResolveIn(text, targets, name) == Err(NoLetters) <==> text.normalise(name) == ""
  {
    if text.normalise(name) != "" {
      Rungs(text, targets, name, text.normalise(name));
    }
  }

  // ---------------------------------------------------------------- the two fuzzy rungs

  /** `part` stands somewhere in `s`. */
  predicate Inside(s: string, part: string) {
    exists k: nat | k <= |s| :: part <= s[k..]
  }

  /** An active target one of whose spellings starts with `norm`. */
  predicate Starts(names: Names, id: TargetId, norm: string)
    requires id in names.targets
  {
    && names.targets[id].state == Active
    && (norm <= names.targets[id].nameNorm
        || exists s | s in names.aliases :: names.aliases[s].target == id && norm <= s)
  }

  /** An active target one of whose spellings has `norm` in it. */
  predicate Holds(names: Names, id: TargetId, norm: string)
    requires id in names.targets
  {
    && names.targets[id].state == Active
    && (Inside(names.targets[id].nameNorm, norm)
        || exists s | s in names.aliases :: names.aliases[s].target == id && Inside(s, norm))
  }

  function Starters(names: Names, norm: string): set<TargetId> {
    set id | id in names.targets && Starts(names, id, norm)
  }

  function Holders(names: Names, norm: string): set<TargetId> {
    set id | id in names.targets && Holds(names, id, norm)
  }

  lemma InsideIsContained(s: string, part: string)
    ensures Inside(s, part) <==> Contains(s, part)
  {
    if Inside(s, part) {
      var k: nat :| k <= |s| && part <= s[k..];
      assert s[k..k + |part|] == s[k..][..|part|];
      assert OccursAt(s, part, k);
    }
    if Contains(s, part) {
      var k: nat :| k <= |s| && OccursAt(s, part, k);
      assert s[k..][..|part|] == s[k..k + |part|];
    }
  }

  /** The normal forms listed with a target are the spellings that are its aliases. */
  lemma ListedSpellings(text: Text, names: Names, t: Listed, s: string)
    requires Normalised(text, names) && ListedFrom(names, t)
    ensures s in Norms(text, t.aliases) <==> s in names.aliases && names.aliases[s].target == t.target.id
  {
    if s in Norms(text, t.aliases) {
      var i :| 0 <= i < |t.aliases| && Norms(text, t.aliases)[i] == s;
      assert t.aliases[i] in t.aliases;
      var s' :| s' in names.aliases && names.aliases[s'] == Alias(t.target.id, t.aliases[i]);
      assert s' == s;
    }
    if s in names.aliases && names.aliases[s].target == t.target.id {
      var a := names.aliases[s].alias;
      assert names.aliases[s] == Alias(t.target.id, a);
      assert a in t.aliases;
      var i :| 0 <= i < |t.aliases| && t.aliases[i] == a;
      assert Norms(text, t.aliases)[i] == s;
    }
  }

  lemma PrefixHit(text: Text, names: Names, t: Listed, name: string, norm: string)
    requires Normalised(text, names) && ListedFrom(names, t)
    ensures Matches(text, MatchPrefix, t, name, norm) <==> Starts(names, t.target.id, norm)
  {
    forall s ensures s in Norms(text, t.aliases) <==> s in names.aliases && names.aliases[s].target == t.target.id {
      ListedSpellings(text, names, t, s);
    }
  }

  lemma SubstringHit(text: Text, names: Names, t: Listed, name: string, norm: string)
    requires Normalised(text, names) && ListedFrom(names, t)
    ensures Matches(text, MatchSubstring, t, name, norm) <==> Holds(names, t.target.id, norm)
  {
    forall s ensures s in Norms(text, t.aliases) <==> s in names.aliases && names.aliases[s].target == t.target.id {
      ListedSpellings(text, names, t, s);
    }
    forall s ensures Inside(s, norm) <==> Contains(s, norm) {
      InsideIsContained(s, norm);
    }
  }

  ghost predicate EachOnce(names: Names, targets: seq<Listed>) {
    && (forall i :: 0 <= i < |targets| ==> ListedFrom(names, targets[i]))
    && forall i, j :: 0 <= i < j < |targets| ==> targets[i].target.id != targets[j].target.id
  }

  ghost predicate Covers(targets: seq<Listed>, ids: set<TargetId>) {
    forall id :: id in ids ==> exists i :: 0 <= i < |targets| && targets[i].target.id == id
  }

  /** `hits` lists exactly these targets, each once and as it is stored. */
  ghost predicate Lists(hits: seq<Listed>, names: Names, ids: set<TargetId>) {
    && |hits| == |ids| && EachOnce(names, hits) && Covers(hits, ids)
    && forall i :: 0 <= i < |hits| ==> hits[i].target.id in ids
  }

  lemma RestOf(names: Names, targets: seq<Listed>, ids: set<TargetId>)
    requires targets != [] && EachOnce(names, targets) && Covers(targets, ids)
    ensures EachOnce(names, targets[1..]) && Covers(targets[1..], ids - {targets[0].target.id})
    ensures forall i :: 0 <= i < |targets| - 1 ==> targets[1..][i].target.id != targets[0].target.id
  {
    var t, rest := targets[0], targets[1..];
    forall id | id in ids - {t.target.id} ensures exists i :: 0 <= i < |rest| && rest[i].target.id == id {
      var i :| 0 <= i < |targets| && targets[i].target.id == id;
      assert rest[i - 1] == targets[i];
    }
  }

  /** Some of a list without repetition, by a test of the target alone. */
  lemma {:induction false} Chosen(names: Names, targets: seq<Listed>, p: Listed -> bool, ids: set<TargetId>)
    requires EachOnce(names, targets) && Covers(targets, ids)
    requires forall i :: 0 <= i < |targets| ==> (p(targets[i]) <==> targets[i].target.id in ids)
    ensures Lists(Filter(p, targets), names, ids)
  {
    if targets == [] {
      assert ids == {};
    } else {
      var t, rest := targets[0], targets[1..];
      var others := ids - {t.target.id};
      RestOf(names, targets, ids);
      Chosen(names, rest, p, others);
      ChosenOneMore(names, t, p(t), ids, Filter(p, rest));
      FilterHead(targets, p);
    }
  }

  lemma FilterHead(targets: seq<Listed>, p: Listed -> bool)
    requires targets != []
    ensures Filter(p, targets)
            == if p(targets[0]) then [targets[0]] + Filter(p, targets[1..]) else Filter(p, targets[1..])
  {
  }

  lemma ChosenOneMore(names: Names, t: Listed, chosen: bool, ids: set<TargetId>, hits: seq<Listed>)
    requires ListedFrom(names, t) && (chosen <==> t.target.id in ids) && Lists(hits, names, ids - {t.target.id})
    ensures Lists(if chosen then [t] + hits else hits, names, ids)
  {
    var others := ids - {t.target.id};
    if chosen {
      OneMoreListed(t, hits, names, others);
      assert ids == {t.target.id} + others;
    } else {
      assert ids == others;
    }
  }

  lemma CoversOneMore(t: Listed, hits: seq<Listed>, ids: set<TargetId>)
    requires Covers(hits, ids)
    ensures Covers([t] + hits, {t.target.id} + ids)
  {
    var all := [t] + hits;
    forall id | id in {t.target.id} + ids ensures exists i :: 0 <= i < |all| && all[i].target.id == id {
      if id == t.target.id {
        assert all[0].target.id == id;
      } else {
        var i :| 0 <= i < |hits| && hits[i].target.id == id;
        assert all[i + 1] == hits[i];
      }
    }
  }

  lemma EachOnceOneMore(t: Listed, hits: seq<Listed>, names: Names)
    requires EachOnce(names, hits) && ListedFrom(names, t)
    requires forall i :: 0 <= i < |hits| ==> hits[i].target.id != t.target.id
    ensures EachOnce(names, [t] + hits)
  {
  }

  lemma OneMoreListed(t: Listed, hits: seq<Listed>, names: Names, ids: set<TargetId>)
    requires Lists(hits, names, ids) && ListedFrom(names, t) && t.target.id !in ids
    ensures Lists([t] + hits, names, {t.target.id} + ids)
  {
    CoversOneMore(t, hits, ids);
    EachOnceOneMore(t, hits, names);
  }

  /** Nobody owns the spelling, so nobody is hit on an exact rung. */
  lemma NoExactHit(text: Text, names: Names, targets: seq<Listed>, name: string, kind: MatchKind)
    requires Normalised(text, names) && Loads(names, targets)
    requires forall id :: !Owns(names, id, text.normalise(name))
    requires kind == MatchName || kind == MatchNameNormalised || kind == MatchAlias || kind == MatchAliasNormalised
    ensures Hits(text, kind, targets, name, text.normalise(name)) == []
  {
    var norm := text.normalise(name);
    var p := (t: Listed) => Matches(text, kind, t, name, norm);
    forall i | 0 <= i < |targets| ensures !p(targets[i]) {
      if p(targets[i]) {
        ExactMatchIsOwner(text, names, targets[i], name, kind);
      }
    }
    NoneOf(p, targets);
  }

  lemma PrefixHits(text: Text, names: Names, targets: seq<Listed>, name: string, norm: string)
    requires Normalised(text, names) && Loads(names, targets)
    ensures Lists(Hits(text, MatchPrefix, targets, name, norm), names, Starters(names, norm))
  {
    forall i | 0 <= i < |targets|
      ensures Matches(text, MatchPrefix, targets[i], name, norm) <==> targets[i].target.id in Starters(names, norm)
    {
      PrefixHit(text, names, targets[i], name, norm);
    }
    Chosen(names, targets, (t: Listed) => Matches(text, MatchPrefix, t, name, norm), Starters(names, norm));
  }

  lemma SubstringHits(text: Text, names: Names, targets: seq<Listed>, name: string, norm: string)
    requires Normalised(text, names) && Loads(names, targets)
    ensures Lists(Hits(text, MatchSubstring, targets, name, norm), names, Holders(names, norm))
  {
    forall i | 0 <= i < |targets|
      ensures Matches(text, MatchSubstring, targets[i], name, norm) <==> targets[i].target.id in Holders(names, norm)
    {
      SubstringHit(text, names, targets[i], name, norm);
    }
    Chosen(names, targets, (t: Listed) => Matches(text, MatchSubstring, t, name, norm), Holders(names, norm));
  }

  /** One target is the answer; several are an ambiguity between exactly those. */
  ghost predicate Answers(r: Result<Resolution, Failure>, names: Names, ids: set<TargetId>, kind: MatchKind) {
    if |ids| == 1
    then
      && r.Ok? && r.value.kind == kind && r.value.target.id in ids && r.value.target.id in names.targets
      && r.value.target == names.targets[r.value.target.id]
    else r.Err? && r.error.Ambiguous? && Lists(r.error.hits, names, ids)
  }

  lemma AnswersAre(hits: seq<Listed>, names: Names, ids: set<TargetId>, kind: MatchKind)
    requires Lists(hits, names, ids) && hits != []
    ensures Answers(Answer(hits, kind), names, ids, kind)
  {
  }

  /**
   * A spelling nobody owns. The active targets with a spelling that starts with it decide; if there is none, those
   * with a spelling that has it anywhere; if there is none of those either nothing matches. One is the answer,
   * several are an ambiguity between exactly those, and a retired target never counts.
   */
  lemma UnownedExactly(text: Text, names: Names, targets: seq<Listed>, name: string)
    requires Normalised(text, names) && Loads(names, targets)
    requires text.normalise(name) != "" && forall id :: !Owns(names, id, text.normalise(name))
    ensures
      var r, norm := ResolveIn(text, targets, name), text.normalise(name);
      if Starters(names, norm) != {} then Answers(r, names, Starters(names, norm), MatchPrefix)
      else if Holders(names, norm) != {} then Answers(r, names, Holders(names, norm), MatchSubstring)
      else r == Err(NothingMatches)
  {
    var norm := text.normalise(name);
    Rungs(text, targets, name, norm);
    NoExactHit(text, names, targets, name, MatchName);
    NoExactHit(text, names, targets, name, MatchNameNormalised);
    NoExactHit(text, names, targets, name, MatchAlias);
    NoExactHit(text, names, targets, name, MatchAliasNormalised);
    PrefixHits(text, names, targets, name, norm);
    SubstringHits(text, names, targets, name, norm);
    var prefix, within := Hits(text, MatchPrefix, targets, name, norm), Hits(text, MatchSubstring, targets, name, norm);
    if prefix != [] {
      AnswersAre(prefix, names, Starters(names, norm), MatchPrefix);
    } else if within != [] {
      AnswersAre(within, names, Holders(names, norm), MatchSubstring);
    }
  }
}
