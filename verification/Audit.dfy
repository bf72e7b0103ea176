/** The circle's hash-chained audit log. The hash itself stays abstract. */
module Audit {
  import opened Core
  import opened Encoding

  type Hash = Bytes -> Bytes

  datatype Row = Row(
    id: Bytes,
    circle: Bytes,
    actor: Option<Bytes>,
    action: Bytes,
    entityType: Bytes,
    entityId: Option<Bytes>,
    detail: Bytes,
    createdAt: int,
    prevHash: Option<Bytes>,
    hash: Bytes)

  datatype Entry = Entry(
    circle: Bytes,
    actor: Bytes,
    action: Bytes,
    entityType: Bytes,
    entityId: Bytes,
    detail: Bytes)

  /** A NULL column hashes as the empty string. */
  function Deref(o: Option<Bytes>): Bytes {
    if o.Some? then o.value else []
  }

  function Fields(r: Row): seq<Bytes> {
    [
      Deref(r.prevHash), r.id, r.circle, Deref(r.actor), r.action, r.entityType, Deref(r.entityId), r.detail,
      IntDigits(r.createdAt)]
  }

  function ChainHash(hash: Hash, r: Row): Bytes {
    hash(Encode(Fields(r)))
  }

  /** The hash a chain ends in; none for no rows, which the first row stores as NULL. */
  function Head(rows: seq<Row>): Option<Bytes> {
    if rows == [] then None else Some(rows[|rows| - 1].hash)
  }

  /** Every row names its predecessor's hash and carries its own. */
  ghost predicate Chained(hash: Hash, rows: seq<Row>) {
    rows == [] ||
    (var last := rows[|rows| - 1];
     && Chained(hash, rows[..|rows| - 1])
     && Deref(last.prevHash) == Deref(Head(rows[..|rows| - 1]))
     && last.hash == ChainHash(hash, last))
  }

  /** One circle's rows, in the order they were minted. */
  function ChainOf(rows: seq<Row>, circle: Bytes): seq<Row> {
    Filter((r: Row) => r.circle == circle, rows)
  }

  lemma ChainOfAppend(rows: seq<Row>, r: Row, circle: Bytes)
    ensures ChainOf(rows + [r], circle)
            == if r.circle == circle then ChainOf(rows, circle) + [r] else ChainOf(rows, circle)
  {
    FilterAppend((r: Row) => r.circle == circle, rows, [r]);
  }

  class AuditLog {
    const hash: Hash
    /** In id order: ids are minted in increasing order, so a new row is always the last. */
    var rows: seq<Row>

    ghost predicate Valid()
      reads this
    {
      forall circle :: Chained(hash, ChainOf(rows, circle))
    }

    constructor (hash: Hash)
      ensures Valid() && rows == [] && this.hash == hash
    {
      this.hash := hash;
      rows := [];
    }

    /** Appends one entry, chained to its circle's last one; other circles' chains do not move. */
    method Append(e: Entry, id: Bytes, at: int) returns (appended: Option<Row>)
      requires Valid()
      modifies this
      ensures Valid()
      ensures appended.Some? <==> e.action != [] && e.entityType != []
      ensures appended.None? ==> rows == old(rows)
      ensures appended.Some? ==>
                && rows == old(rows) + [appended.value]
                && Records(appended.value, e, id, at)
                && appended.value.prevHash == Head(ChainOf(old(rows), e.circle))
                && appended.value.hash == ChainHash(hash, appended.value)
      ensures appended.Some? ==> forall circle ::
                ChainOf(rows, circle) ==
                if circle == e.circle then ChainOf(old(rows), circle) + [appended.value] else ChainOf(old(rows), circle)
    {
      if e.action == [] || e.entityType == [] {
        return None;
      }
      var prev := Head(ChainOf(rows, e.circle));
      var row := Row(id, e.circle, None, e.action, e.entityType, None, e.detail, at, prev, []);
      if e.actor != [] {
        row := row.(actor := Some(e.actor));
      }
      if e.entityId != [] {
        row := row.(entityId := Some(e.entityId));
      }
      row := row.(hash := ChainHash(hash, row));
      ChainsAfter(hash, rows, row);
      rows := rows + [row];
      return Some(row);
    }
  }

  /** The row says what the entry said. */
  ghost predicate Records(r: Row, e: Entry, id: Bytes, at: int) {
    && r.id == id && r.circle == e.circle && r.action == e.action && r.entityType == e.entityType
    && Deref(r.actor) == e.actor && Deref(r.entityId) == e.entityId && r.detail == e.detail && r.createdAt == at
  }

  lemma ChainsAfter(hash: Hash, rows: seq<Row>, row: Row)
    requires forall circle :: Chained(hash, ChainOf(rows, circle))
    requires row.prevHash == Head(ChainOf(rows, row.circle)) && row.hash == ChainHash(hash, row)
    ensures forall circle :: Chained(hash, ChainOf(rows + [row], circle))
    ensures forall circle ::
              ChainOf(rows + [row], circle)
              == if circle == row.circle then ChainOf(rows, circle) + [row] else ChainOf(rows, circle)
  {
    forall circle
      ensures Chained(hash, ChainOf(rows + [row], circle))
      ensures ChainOf(rows + [row], circle)
              == if circle == row.circle then ChainOf(rows, circle) + [row] else ChainOf(rows, circle)
    {
      ChainOfAppend(rows, row, circle);
      var chain := ChainOf(rows, circle);
      assert (chain + [row])[..|chain|] == chain;
    }
  }

  /** The nine columns that are hashed, the previous hash first; a NULL as nothing, an instant in decimal. */
  ghost predicate Columns(f: seq<Bytes>, r: Row) {
    && |f| == 9 && f[1] == r.id && f[2] == r.circle && f[4] == r.action && f[5] == r.entityType && f[7] == r.detail
    && f[0] == (if r.prevHash.Some? then r.prevHash.value else [])
    && f[3] == (if r.actor.Some? then r.actor.value else [])
    && f[6] == (if r.entityId.Some? then r.entityId.value else [])
    && f[8] == (if r.createdAt < 0 then [MINUS] + Digits(-r.createdAt) else Digits(r.createdAt))
  }

  lemma FieldsAreColumns(r: Row)
    ensures Columns(Fields(r), r)
  {
  }

  /** What was hashed for a row reads back as its columns, and no other way. */
  lemma HashedColumns(hash: Hash, r: Row, input: Bytes)
    requires input == Encode(Fields(r))
    ensures ChainHash(hash, r) == hash(input)
    ensures Decode(input).Some? && Columns(Decode(input).value, r)
  {
    FieldsAreColumns(r);
    ReadsBack(Fields(r), input, r);
  }

  lemma ReadsBack(f: seq<Bytes>, input: Bytes, r: Row)
    requires input == Encode(f) && Columns(f, r)
    ensures Decode(input).Some? && Columns(Decode(input).value, r)
  {
    DecodeEncode(f);
  }

  // ---------------------------------------------------------------- tamper evidence

  /** Equal up to a NULL column rewritten as an empty string, which the chain does not distinguish. */
  predicate SameRow(a: Row, b: Row) {
    && a == b.(actor := a.actor, entityId := a.entityId, prevHash := a.prevHash)
    && Deref(a.actor) == Deref(b.actor) && Deref(a.entityId) == Deref(b.entityId)
    && Deref(a.prevHash) == Deref(b.prevHash)
  }

  ghost predicate SameRows(a: seq<Row>, b: seq<Row>) {
    |a| == |b| && forall i :: 0 <= i < |a| ==> SameRow(a[i], b[i])
  }

  lemma FieldsDetermineRow(a: Row, b: Row)
    requires a.hash == b.hash && Fields(a) == Fields(b)
    ensures SameRow(a, b)
  {
    var f, g := Fields(a), Fields(b);
    assert f[0] == g[0] && f[1] == g[1] && f[2] == g[2] && f[3] == g[3] && f[4] == g[4];
    assert f[5] == g[5] && f[6] == g[6] && f[7] == g[7] && f[8] == g[8];
    IntDigitsInjective(a.createdAt, b.createdAt);
  }

  /**
   * Two logs that verify and end in the same hash are the same log, row for row, or they exhibit two
   * different inputs with one hash. Nothing is assumed of the hash but a fixed non-zero length.
   */
  lemma {:induction false} TamperEvidence(hash: Hash, size: nat, a: seq<Row>, b: seq<Row>) returns (x: Bytes, y: Bytes)
    requires size > 0 && forall input: Bytes :: |hash(input)| == size
    requires Chained(hash, a) && Chained(hash, b) && Deref(Head(a)) == Deref(Head(b))
    ensures SameRows(a, b) || (x != y && hash(x) == hash(y))
  {
    x, y := [], [];
    if a != [] && b != [] {
      var p, q := a[|a| - 1], b[|b| - 1];
      x, y := Encode(Fields(p)), Encode(Fields(q));
      assert p.hash == hash(x) && q.hash == hash(y);
      if x == y {
        EncodeInjective(Fields(p), Fields(q));
        FieldsDetermineRow(p, q);
        assert Fields(p)[0] == Fields(q)[0];
        x, y := TamperEvidence(hash, size, a[..|a| - 1], b[..|b| - 1]);
        if SameRows(a[..|a| - 1], b[..|b| - 1]) {
          forall i | 0 <= i < |a| ensures SameRow(a[i], b[i]) {
            if i < |a| - 1 {
              assert SameRow(a[..|a| - 1][i], b[..|b| - 1][i]);
            }
          }
        }
      }
    } else {
      HeadSize(hash, size, a);
      HeadSize(hash, size, b);
    }
  }

  lemma HeadSize(hash: Hash, size: nat, rows: seq<Row>)
    requires Chained(hash, rows) && forall input: Bytes :: |hash(input)| == size
    ensures |Deref(Head(rows))| == if rows == [] then 0 else size
  {
  }

  /** Rewriting, removing or inserting a row anywhere below the head is one of the two. */
  lemma RemovalIsEvident(hash: Hash, size: nat, a: seq<Row>, b: seq<Row>) returns (x: Bytes, y: Bytes)
    requires size > 0 && forall input: Bytes :: |hash(input)| == size
    requires Chained(hash, a) && Chained(hash, b) && |a| != |b| && Deref(Head(a)) == Deref(Head(b))
    ensures x != y && hash(x) == hash(y)
  {
    x, y := TamperEvidence(hash, size, a, b);
  }

  /** The blind spot is exactly that: a NULL turned into an empty string, or back, leaves the chain intact. */
  lemma {:induction false} BlindSpot(hash: Hash, a: seq<Row>, b: seq<Row>)
    requires Chained(hash, a) && SameRows(a, b)
    ensures Chained(hash, b) && Head(a) == Head(b)
  {
    if a == [] {
    } else {
      var n := |a| - 1;
      assert SameRow(a[n], b[n]);
      BlindSpot(hash, a[..n], b[..n]);
      assert Fields(a[n]) == Fields(b[n]);
    }
  }
}
