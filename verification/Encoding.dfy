/** Length-prefixed encoding, and why what was hashed can be read back only one way. */
module Encoding {
  import opened Core

  type Byte = b: int | 0 <= b < 256

  type Bytes = seq<Byte>

  const ZERO: Byte := 48
  const COLON: Byte := 58
  const MINUS: Byte := 45

  /** Decimal digits, most significant first. */
  function Digits(n: nat): (d: Bytes)
    ensures d != []
    ensures forall i :: 0 <= i < |d| ==> ZERO <= d[i] < COLON
  {
    if n < 10 then [ZERO + n] else Digits(n / 10) + [ZERO + n % 10]
  }

  function IntDigits(i: int): Bytes {
    if i < 0 then [MINUS] + Digits(-i) else Digits(i)
  }

  function Field(b: Bytes): Bytes {
    Digits(|b|) + [COLON] + b
  }

  function Encode(parts: seq<Bytes>): Bytes {
    if parts == [] then [] else Field(parts[0]) + Encode(parts[1..])
  }

  /** The writer: each part preceded by its length. */
  method WriteParts(parts: seq<Bytes>) returns (written: Bytes)
    ensures written == Encode(parts)
  {
    written := [];
    for i := 0 to |parts|
      invariant written + Encode(parts[i..]) == Encode(parts)
    {
      assert parts[i..][1..] == parts[i + 1..];
      EncodeHead(written, parts[i..]);
      written := written + Digits(|parts[i]|) + [COLON];
      written := written + parts[i];
    }
  }

  lemma EncodeHead(written: Bytes, parts: seq<Bytes>)
    requires parts != []
    ensures written + Encode(parts) == (written + Digits(|parts[0]|) + [COLON] + parts[0]) + Encode(parts[1..])
  {
  }

  method EqualHash(a: Bytes, b: Bytes) returns (equal: bool)
    ensures equal <==> a == b
  {
    if |a| != |b| {
      return false;
    }
    for i := 0 to |a|
      invariant a[..i] == b[..i]
    {
      if a[i] != b[i] {
        return false;
      }
    }
    return true;
  }

  // ---------------------------------------------------------------- reading it back

  function Value(digits: Bytes): int {
    if digits == [] then 0 else Value(digits[..|digits| - 1]) * 10 + (digits[|digits| - 1] - ZERO)
  }

  lemma {:induction false} ValueOfDigits(n: nat)
    ensures Value(Digits(n)) == n
  {
    if n < 10 {
      assert Digits(n)[..0] == [];
    } else {
      ValueOfDigits(n / 10);
      assert Digits(n)[..|Digits(n)| - 1] == Digits(n / 10);
    }
  }

  lemma IntDigitsInjective(i: int, j: int)
    requires IntDigits(i) == IntDigits(j)
    ensures i == j
  {
    assert IntDigits(i)[0] == IntDigits(j)[0];
    assert i < 0 <==> IntDigits(i)[0] == MINUS;
    assert j < 0 <==> IntDigits(j)[0] == MINUS;
    if i < 0 {
      assert IntDigits(i)[1..] == Digits(-i) && IntDigits(j)[1..] == Digits(-j);
      ValueOfDigits(-i);
      ValueOfDigits(-j);
    } else {
      ValueOfDigits(i);
      ValueOfDigits(j);
    }
  }

  function FirstColon(b: Bytes): (i: nat)
    ensures i <= |b|
    ensures i < |b| ==> b[i] == COLON
  {
    if b == [] || b[0] == COLON then 0 else 1 + FirstColon(b[1..])
  }

  lemma {:induction false} FirstColonAfterDigits(digits: Bytes, rest: Bytes)
    requires forall i :: 0 <= i < |digits| ==> digits[i] != COLON
    ensures FirstColon(digits + [COLON] + rest) == |digits|
  {
    if digits != [] {
      assert (digits + [COLON] + rest)[1..] == digits[1..] + [COLON] + rest;
      assert (digits + [COLON] + rest)[0] == digits[0];
      FirstColonAfterDigits(digits[1..], rest);
    } else {
      assert ([] + [COLON] + rest)[0] == COLON;
    }
  }

  /** The parts behind an encoding, if it is one. */
  function Decode(b: Bytes): Option<seq<Bytes>>
    decreases |b|
  {
    if b == [] then Some([])
    else
      var i := FirstColon(b);
      if i == |b| then None
      else
        var n, rest := Value(b[..i]), b[i + 1..];
        if n < 0 || n > |rest| then None
        else
          match Decode(rest[n..])
          case None => None
          case Some(parts) => Some([rest[..n]] + parts)
  }

  /** Whatever the parts hold, colons and digits included, they are read back exactly. */
  lemma {:induction false} DecodeEncode(parts: seq<Bytes>)
    ensures Decode(Encode(parts)) == Some(parts)
  {
    if parts == [] {
    } else {
      var p, tail := parts[0], Encode(parts[1..]);
      var b := Encode(parts);
      DecodeEncode(parts[1..]);
      assert b == Digits(|p|) + [COLON] + (p + tail);
      FirstColonAfterDigits(Digits(|p|), p + tail);
      var i := |Digits(|p|)|;
      assert b[..i] == Digits(|p|) && b[i + 1..] == p + tail;
      ValueOfDigits(|p|);
      assert (p + tail)[..|p|] == p && (p + tail)[|p|..] == tail;
      assert [p] + parts[1..] == parts;
    }
  }

  /** So two lists of parts hash the same input only when they are the same list. */
  lemma EncodeInjective(a: seq<Bytes>, b: seq<Bytes>)
    requires Encode(a) == Encode(b)
    ensures a == b
  {
    DecodeEncode(a);
    DecodeEncode(b);
  }
}
