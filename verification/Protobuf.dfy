// The protobuf wrapping in which 08-wasm stores a client's states: varints,
// length-delimited fields, and the `Any` around them.
module Protobuf {
  import opened Encoding

  function Varint(v: nat): Bytes {
    if v < 128 then [v] else [v % 128 + 128] + Varint(v / 128)
  }

  /** The encoder's loop: seven bits at a time, low ones first. */
  method PushVarint(v: nat, out: Bytes) returns (r: Bytes)
    ensures r == out + Varint(v)
  {
    r := out;
    var rest := v;
    while true
      invariant r + Varint(rest) == out + Varint(v)
      decreases rest
    {
      var b := rest % 128;
      if rest / 128 == 0 {
        r := r + [b];
        return;
      }
      assert r + Varint(rest) == (r + [b + 128]) + Varint(rest / 128);
      r := r + [b + 128];
      rest := rest / 128;
    }
  }

  /** A varint and what follows it. */
  function ReadVarint(b: Bytes): Option<(nat, Bytes)> {
    if b == [] then None
    else if b[0] < 128 then Some((b[0], b[1..]))
    else match ReadVarint(b[1..])
      case None => None
      case Some((v, rest)) => Some((b[0] - 128 + 128 * v, rest))
  }

  lemma {:induction false} ReadBack(v: nat, rest: Bytes)
    ensures ReadVarint(Varint(v) + rest) == Some((v, rest))
  {
    var b := Varint(v) + rest;
    if v < 128 {
      assert b[1..] == rest;
    } else {
      ReadBack(v / 128, rest);
      assert b[1..] == Varint(v / 128) + rest;
    }
  }

  /** Length-delimited field `n`. */
  function FieldBytes(n: nat, x: Bytes): Bytes { Varint(8 * n + 2) + (Varint(|x|) + x) }

  /** A length-delimited field `n` and what follows it. */
  function ReadField(n: nat, b: Bytes): Option<(Bytes, Bytes)> {
    match ReadVarint(b)
    case None => None
    case Some((tag, r)) =>
      if tag != 8 * n + 2 then None else
      match ReadVarint(r)
      case None => None
      case Some((len, r')) => if |r'| < len then None else Some((r'[..len], r'[len..]))
  }

  lemma ReadFieldBack(n: nat, x: Bytes, rest: Bytes)
    ensures ReadField(n, FieldBytes(n, x) + rest) == Some((x, rest))
  {
    assert FieldBytes(n, x) + rest == Varint(8 * n + 2) + (Varint(|x|) + (x + rest));
    ReadBack(8 * n + 2, Varint(|x|) + (x + rest));
    ReadBack(|x|, x + rest);
    assert (x + rest)[..|x|] == x && (x + rest)[|x|..] == rest;
  }

  /** A varint field `n`, left out when zero. */
  function FieldInt(n: nat, v: nat): Bytes {
    if v == 0 then [] else Varint(8 * n) + Varint(v)
  }

  function Any(typeUrl: Bytes, value: Bytes): Bytes { FieldBytes(1, typeUrl) + FieldBytes(2, value) }

  /** The value inside an `Any` of the given type. */
  function ReadAny(typeUrl: Bytes, b: Bytes): Option<Bytes> {
    match ReadField(1, b)
    case None => None
    case Some((url, r)) =>
      if url != typeUrl then None else
      match ReadField(2, r)
      case None => None
      case Some((value, rest)) => if rest != [] then None else Some(value)
  }

  lemma ReadAnyBack(typeUrl: Bytes, value: Bytes)
    ensures ReadAny(typeUrl, Any(typeUrl, value)) == Some(value)
  {
    ReadFieldBack(1, typeUrl, FieldBytes(2, value));
    ReadFieldBack(2, value, []);
    assert FieldBytes(2, value) + [] == FieldBytes(2, value);
  }
}
