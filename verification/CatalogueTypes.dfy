/** Raid targets and the spellings they are known by. */
module CatalogueTypes {

  type TargetId = nat

  /** Normalisation and trimming are library code: any two functions will do. */
  datatype Text = Text(normalise: string -> string, trim: string -> string)

  datatype TargetState = Active | Retired

  datatype Target = Target(
    id: TargetId,
    name: string,
    nameNorm: string,
    zone: string,
    zoneNorm: string,
    expansion: string,
    category: string,
    isQuakeTarget: bool,
    state: TargetState)

  datatype Alias = Alias(target: TargetId, alias: string)

  /** The two tables; `aliases` is keyed by its unique index, and ids are minted in order. */
  datatype Names = Names(targets: map<TargetId, Target>, aliases: map<string, Alias>, nextId: TargetId)

  /** A target as the ladder reads it, with its aliases attached. */
  datatype Listed = Listed(target: Target, aliases: seq<string>)

  function Norms(text: Text, aliases: seq<string>): (norms: seq<string>)
    ensures |norms| == |aliases|
    ensures forall i :: 0 <= i < |aliases| ==> norms[i] == text.normalise(aliases[i])
  {
    seq(|aliases|, i requires 0 <= i < |aliases| => text.normalise(aliases[i]))
  }
}
