/** What `Create` and `Update` demand of a target's names before they write any. */
module Spelling {
  import opened Core
  import opened CatalogueTypes

  const MAX_NAME_LEN: nat := 120
  const MAX_ZONE_LEN: nat := 120
  const MAX_ALIASES: nat := 32
  const EXPANSIONS: seq<string> := ["classic", "kunark", "velious"]
  const CATEGORIES: seq<string> := ["open_world", "zone_boss", "planar", "ntov", "sleeper", "key_holder"]

  datatype Rejection =
    | NoName | NameTooLong | NoZone | ZoneTooLong | NameHasNoLetters | BadExpansion | BadCategory | BadState
    | TooManyAliases | AliasHasNoLetters(index: nat)
    | NameClaimed | AliasClaimed(index: nat) | AliasIsName(index: nat)
    | NoSuchTarget

  datatype Identity = Identity(
    name: string, nameNorm: string, zone: string, zoneNorm: string, expansion: string, category: string
  )

  function ValidateIdentity(
    text: Text, name: string, zone: string, expansion: string, category: string
  ): (r: Result<Identity, Rejection>)
    ensures r.Ok? <==>
            && 0 < |text.trim(name)| <= 120 && 0 < |text.trim(zone)| <= 120
            && text.normalise(text.trim(name)) != ""
            && expansion in ["classic", "kunark", "velious"]
            && category in ["open_world", "zone_boss", "planar", "ntov", "sleeper", "key_holder"]
    ensures r.Ok? ==> r.value.name == text.trim(name) && r.value.nameNorm == text.normalise(r.value.name)
    ensures r.Ok? ==> r.value.zone == text.trim(zone) && r.value.zoneNorm == text.normalise(r.value.zone)
    ensures r.Ok? ==> r.value.expansion == expansion && r.value.category == category
  {
    var name, zone := text.trim(name), text.trim(zone);
    if name == "" then Err(NoName)
    else if |name| > MAX_NAME_LEN then Err(NameTooLong)
    else if zone == "" then Err(NoZone)
    else if |zone| > MAX_ZONE_LEN then Err(ZoneTooLong)
    else if text.normalise(name) == "" then Err(NameHasNoLetters)
    else if expansion !in EXPANSIONS then Err(BadExpansion)
    else if category !in CATEGORIES then Err(BadCategory)
    else Ok(Identity(name, text.normalise(name), zone, text.normalise(zone), expansion, category))
  }

  // ---------------------------------------------------------------- the alias list

  /** The first `n` raw aliases, trimmed, the first of each normal form kept. */
  function Clean(text: Text, raw: seq<string>, n: nat): Result<seq<string>, Rejection>
    requires n <= |raw|
  {
    if n == 0 then Ok([])
    else
      match Clean(text, raw, n - 1)
      case Err(e) => Err(e)
      case Ok(out) =>
        var alias := text.trim(raw[n - 1]);
        var norm := text.normalise(alias);
        if norm == "" then Err(AliasHasNoLetters(n - 1))
        else if norm in Norms(text, out) then Ok(out)
        else Ok(out + [alias])
  }

  function CleanAliases(text: Text, raw: seq<string>): Result<seq<string>, Rejection> {
    if |raw| > MAX_ALIASES then Err(TooManyAliases) else Clean(text, raw, |raw|)
  }

  method ValidateAliases(text: Text, raw: seq<string>) returns (r: Result<seq<string>, Rejection>)
    ensures r == CleanAliases(text, raw)
  {
    if |raw| > MAX_ALIASES {
      return Err(TooManyAliases);
    }
    var seen: set<string> := {};
    var out: seq<string> := [];
    for i := 0 to |raw|
      invariant Clean(text, raw, i) == Ok(out)
      invariant forall norm :: norm in seen <==> norm in Norms(text, out)
    {
      var alias := text.trim(raw[i]);
      var norm := text.normalise(alias);
      if norm == "" {
        CleanStaysFailed(text, raw, i + 1, |raw|);
        return Err(AliasHasNoLetters(i));
      }
      if norm !in seen {
        NormsOfAppend(text, out, alias);
        seen := seen + {norm};
        out := out + [alias];
      }
    }
    return Ok(out);
  }

  lemma NormsOfAppend(text: Text, out: seq<string>, alias: string)
    ensures Norms(text, out + [alias]) == Norms(text, out) + [text.normalise(alias)]
  {
  }

  lemma {:induction false} CleanStaysFailed(text: Text, raw: seq<string>, i: nat, n: nat)
    requires i <= n <= |raw| && Clean(text, raw, i).Err?
    ensures Clean(text, raw, n) == Clean(text, raw, i)
  {
    if i == n {
    } else {
      CleanStaysFailed(text, raw, i, n - 1);
    }
  }

  ghost predicate Distinct(s: seq<string>) {
    forall i, j :: 0 <= i < j < |s| ==> s[i] != s[j]
  }

  /** What is kept says exactly what was sent: the same normal forms, each once, in trimmed spelling. */
  lemma {:induction false} CleanKeepsEverySpelling(text: Text, raw: seq<string>, n: nat)
    requires n <= |raw|
    ensures Clean(text, raw, n).Ok? <==> forall i :: 0 <= i < n ==> text.normalise(text.trim(raw[i])) != ""
    ensures Clean(text, raw, n).Ok? ==>
              var out := Clean(text, raw, n).value;
              && Distinct(Norms(text, out)) && "" !in Norms(text, out)
              && (forall a :: a in out ==> exists i :: 0 <= i < n && a == text.trim(raw[i]))
              && (forall i :: 0 <= i < n ==> text.normalise(text.trim(raw[i])) in Norms(text, out))
  {
    if n == 0 {
    } else {
      CleanKeepsEverySpelling(text, raw, n - 1);
      if Clean(text, raw, n - 1).Ok? {
        NormsOfAppend(text, Clean(text, raw, n - 1).value, text.trim(raw[n - 1]));
      }
    }
  }

  /** A list is let through exactly when it is no longer than 32 and every alias has a letter or digit in it. */
  lemma AliasesAdmittedExactly(text: Text, raw: seq<string>)
    ensures CleanAliases(text, raw).Ok? <==>
              |raw| <= 32 && forall i :: 0 <= i < |raw| ==> text.normalise(text.trim(raw[i])) != ""
  {
    CleanKeepsEverySpelling(text, raw, |raw|);
  }

  // ---------------------------------------------------------------- one namespace

  /** Every spelling, of a name or of an alias, that belongs to a target other than `self`. */
  function Claimed(names: Names, self: TargetId): set<string> {
    (set id | id in names.targets && id != self :: names.targets[id].nameNorm)
    + (set s | s in names.aliases && names.aliases[s].target != self)
  }

  function AliasClash(
    text: Text, claimed: set<string>, nameNorm: string, aliases: seq<string>, i: nat
  ): Option<Rejection>
    requires i <= |aliases|
    decreases |aliases| - i
  {
    if i == |aliases| then None
    else
      var norm := text.normalise(aliases[i]);
      if norm in claimed then Some(AliasClaimed(i))
      else if norm == nameNorm then Some(AliasIsName(i))
      else AliasClash(text, claimed + {norm}, nameNorm, aliases, i + 1)
  }

  function FirstClash(
    text: Text, names: Names, self: TargetId, nameNorm: string, aliases: seq<string>
  ): Option<Rejection> {
    if nameNorm in Claimed(names, self) then Some(NameClaimed)
    else AliasClash(text, Claimed(names, self), nameNorm, aliases, 0)
  }

  method CheckNamespace(text: Text, names: Names, self: TargetId, nameNorm: string, aliases: seq<string>)
    returns (clash: Option<Rejection>)
    ensures clash == FirstClash(text, names, self, nameNorm, aliases)
  {
    var claimed: set<string> := {};
    var rows := names.targets.Keys;
    while rows != {}
      invariant rows <= names.targets.Keys
      invariant claimed == set id | id in names.targets && id !in rows && id != self :: names.targets[id].nameNorm
      decreases rows
    {
      var id :| id in rows;
      rows := rows - {id};
      if id != self {
        claimed := claimed + {names.targets[id].nameNorm};
      }
    }
    ghost var ofNames := claimed;
    var aliasRows := names.aliases.Keys;
    while aliasRows != {}
      invariant aliasRows <= names.aliases.Keys
      invariant claimed == ofNames + set s | s in names.aliases && s !in aliasRows && names.aliases[s].target != self
      decreases aliasRows
    {
      var s :| s in aliasRows;
      aliasRows := aliasRows - {s};
      if names.aliases[s].target != self {
        claimed := claimed + {s};
      }
    }
    assert claimed == Claimed(names, self);
    if nameNorm in claimed {
      return Some(NameClaimed);
    }
    for i := 0 to |aliases|
      invariant FirstClash(text, names, self, nameNorm, aliases) == AliasClash(text, claimed, nameNorm, aliases, i)
    {
      var norm := text.normalise(aliases[i]);
      if norm in claimed {
        return Some(AliasClaimed(i));
      }
      if norm == nameNorm {
        return Some(AliasIsName(i));
      }
      claimed := claimed + {norm};
    }
    return None;
  }

  /** The spellings are all different and nobody else's. */
  ghost predicate Free(text: Text, names: Names, self: TargetId, nameNorm: string, aliases: seq<string>) {
    var norms := Norms(text, aliases);
    nameNorm !in Claimed(names, self) && Unclaimed(norms, Claimed(names, self), nameNorm, 0)
  }

  ghost predicate Unclaimed(norms: seq<string>, claimed: set<string>, nameNorm: string, from: nat) {
    && (forall i :: from <= i < |norms| ==> norms[i] !in claimed && norms[i] != nameNorm)
    && (forall i, j :: from <= i < j < |norms| ==> norms[i] != norms[j])
  }

  lemma {:induction false} AliasClashExactly(
    text: Text, claimed: set<string>, nameNorm: string, aliases: seq<string>, i: nat
  )
    requires i <= |aliases|
    ensures AliasClash(text, claimed, nameNorm, aliases, i).None?
       <==> Unclaimed(Norms(text, aliases), claimed, nameNorm, i)
    decreases |aliases| - i
  {
    if i == |aliases| {
    } else {
      var norms, more := Norms(text, aliases), claimed + {text.normalise(aliases[i])};
      AliasClashExactly(text, more, nameNorm, aliases, i + 1);
      assert Unclaimed(norms, claimed, nameNorm, i) <==>
             norms[i] !in claimed && norms[i] != nameNorm && Unclaimed(norms, more, nameNorm, i + 1);
    }
  }

  /** A write is let through exactly when every spelling it carries is free. */
  lemma ClashesExactlyWhenNotFree(text: Text, names: Names, self: TargetId, nameNorm: string, aliases: seq<string>)
    ensures FirstClash(text, names, self, nameNorm, aliases).None? <==> Free(text, names, self, nameNorm, aliases)
  {
    AliasClashExactly(text, Claimed(names, self), nameNorm, aliases, 0);
  }
}
