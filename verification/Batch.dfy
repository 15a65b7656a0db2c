/** `WriteBatch`: the unit of durability, and its wire form. */
module Batch {
  import opened Bytes
  import opened Varint

  const MAX_OPS: nat := 0x10_0000

  datatype Op =
    | Put(key: Key, value: seq<byte>)
    | Delete(key: Key)

  type Ops = seq<Op>

  predicate FitsOp(op: Op) {
    |op.key| < U32_LIMIT && (op.Put? ==> |op.value| < U32_LIMIT)
  }

  predicate AllFit(ops: Ops) {
    forall i :: 0 <= i < |ops| ==> FitsOp(ops[i])
  }

  /** What the encoder demands: every length it writes is a 32-bit number. */
  predicate Encodable(ops: Ops) {
    |ops| < U32_LIMIT && AllFit(ops)
  }

  /** A length-prefixed byte string. */
  function Blob(b: seq<byte>): (s: seq<byte>) {
    Leb(|b|) + b
  }

  function EncodeOp(op: Op): (s: seq<byte>) {
    match op
    case Put(key, value) => [0] + (Blob(key) + Blob(value))
    case Delete(key) => [1] + Blob(key)
  }

  function EncodeOps(ops: Ops): (s: seq<byte>) {
    if ops == [] then [] else EncodeOp(ops[0]) + EncodeOps(ops[1..])
  }

  function Encode(ops: Ops): (s: seq<byte>) {
    Leb(|ops|) + EncodeOps(ops)
  }

  function TakeBlob(s: seq<byte>): (r: Result<(seq<byte>, seq<byte>)>)
    ensures r.Ok? ==> |r.value.0| < U32_LIMIT && |r.value.1| < |s|
  {
    match DecodeU32(s)
    case Err(e) => Err(e)
    case Ok((n, c)) =>
      var rest := s[c..];
      if |rest| < n then Err(UnexpectedEof)
      else (DecodeU32InRange(s); Ok((rest[..n], rest[n..])))
  }

  function DecodeOp(s: seq<byte>): (r: Result<(Op, seq<byte>)>)
    ensures r.Ok? ==> FitsOp(r.value.0) && |r.value.1| < |s|
  {
    if s == [] then Err(UnexpectedEof)
    else if s[0] > 1 then Err(InvalidFormat)
    else match TakeBlob(s[1..])
      case Err(e) => Err(e)
      case Ok((key, rest)) =>
        if s[0] == 1 then Ok((Delete(key), rest))
        else match TakeBlob(rest)
          case Err(e) => Err(e)
          case Ok((value, tail)) => Ok((Put(key, value), tail))
  }

  function DecodeOps(s: seq<byte>, count: nat): (r: Result<(Ops, seq<byte>)>)
    ensures r.Ok? ==> |r.value.0| == count
    decreases count
  {
    if count == 0 then Ok(([], s))
    else match DecodeOp(s)
      case Err(e) => Err(e)
      case Ok((op, rest)) =>
        match DecodeOps(rest, count - 1)
        case Err(e) => Err(e)
        case Ok((ops, tail)) => Ok(([op] + ops, tail))
  }

  function Decode(s: seq<byte>): (r: Result<Ops>)
    ensures r.Ok? ==> |r.value| <= MAX_OPS
  {
    match DecodeU32(s)
    case Err(e) => Err(e)
    case Ok((count, c)) =>
      if count > MAX_OPS then Err(InvalidFormat)
      else match DecodeOps(s[c..], count)
        case Err(e) => Err(e)
        case Ok((ops, tail)) => if tail == [] then Ok(ops) else Err(InvalidFormat)
  }

  // ----- the loops of the source -----

  /** Appends the encoding to whatever `out` already holds. */
  method EncodeInto(ops: Ops, out: seq<byte>) returns (res: seq<byte>)
    requires Encodable(ops)
    ensures res == out + Encode(ops)
  {
    res := out + Leb(|ops|);
    var i := 0;
    assert ops[0..] == ops;
    Assoc(out, Leb(|ops|), EncodeOps(ops));
    while i < |ops|
      invariant i <= |ops|
      invariant res + EncodeOps(ops[i..]) == out + Encode(ops)
    {
      var piece;
      match ops[i] {
        case Put(key, value) =>
          piece := [0] + (Blob(key) + Blob(value));
        case Delete(key) =>
          piece := [1] + Blob(key);
      }
      assert ops[i..][1..] == ops[i + 1..];
      Assoc(res, piece, EncodeOps(ops[i + 1..]));
      res := res + piece;
      i := i + 1;
    }
  }

  function Prepend(done: Ops, r: Result<(Ops, seq<byte>)>): Result<(Ops, seq<byte>)> {
    match r
    case Err(e) => Err(e)
    case Ok((ops, tail)) => Ok((done + ops, tail))
  }

  /** Consumes the input slice op by op. */
  method DecodeLoop(input: seq<byte>) returns (r: Result<Ops>)
    ensures r == Decode(input)
  {
    hide DecodeOp, DecodeU32;
    var head := DecodeU32(input);
    if head.Err? {
      return Err(head.error);
    }
    var (count, c) := head.value;
    if count > MAX_OPS {
      return Err(InvalidFormat);
    }
    var bytes := input[c..];
    var ops: Ops := [];
    var i := 0;
    assert forall more: Ops :: [] + more == more;
    while i < count
      invariant i <= count
      invariant DecodeOps(input[c..], count) == Prepend(ops, DecodeOps(bytes, count - i))
    {
      var step := DecodeOp(bytes);
      if step.Err? {
        return Err(step.error);
      }
      assert forall done: Ops, x: Op, more: Ops {:trigger done + [x] + more} :: done + ([x] + more) == done + [x] + more;
      ops := ops + [step.value.0];
      bytes := step.value.1;
      i := i + 1;
    }
    assert ops + [] == ops;
    if bytes != [] {
      return Err(InvalidFormat);
    }
    return Ok(ops);
  }

  // ----- properties -----

  lemma TakeBlobRoundTrip(b: seq<byte>, rest: seq<byte>)
    requires |b| < U32_LIMIT
    ensures TakeBlob(Blob(b) + rest) == Ok((b, rest))
  {
    hide DecodeU32;
    var s := Blob(b) + rest;
    Assoc(Leb(|b|), b, rest);
    RoundTripU32(|b|, b + rest);
    assert s[|Leb(|b|)|..] == b + rest;
  }

  lemma OpRoundTrip(op: Op, rest: seq<byte>)
    requires FitsOp(op)
    ensures DecodeOp(EncodeOp(op) + rest) == Ok((op, rest))
  {
    hide TakeBlob, Blob;
    var s := EncodeOp(op) + rest;
    match op {
      case Delete(key) =>
        Assoc([1], Blob(key), rest);
        assert s[1..] == Blob(key) + rest;
        TakeBlobRoundTrip(key, rest);
      case Put(key, value) =>
        Assoc([0], Blob(key) + Blob(value), rest);
        Assoc(Blob(key), Blob(value), rest);
        assert s[1..] == Blob(key) + (Blob(value) + rest);
        TakeBlobRoundTrip(key, Blob(value) + rest);
        TakeBlobRoundTrip(value, rest);
    }
  }

  lemma {:induction false} DecodedOpsFit(s: seq<byte>, count: nat)
    requires DecodeOps(s, count).Ok?
    ensures AllFit(DecodeOps(s, count).value.0)
    decreases count
  {
    hide DecodeOp;
    if count > 0 {
      var (op, rest) := DecodeOp(s).value;
      DecodedOpsFit(rest, count - 1);
      var ops := DecodeOps(rest, count - 1).value.0;
      assert AllFit([op] + ops);
    }
  }

  /** Every accepted batch is one the encoder can write. */
  lemma DecodedIsEncodable(s: seq<byte>)
    requires Decode(s).Ok?
    ensures Encodable(Decode(s).value)
  {
    var (count, c) := DecodeU32(s).value;
    DecodedOpsFit(s[c..], count);
  }

  lemma {:induction false} OpsRoundTrip(ops: Ops, rest: seq<byte>)
    requires AllFit(ops)
    ensures DecodeOps(EncodeOps(ops) + rest, |ops|) == Ok((ops, rest))
  {
    hide DecodeOp, EncodeOp;
    if ops == [] {
      assert EncodeOps(ops) + rest == rest;
    } else {
      var tail := EncodeOps(ops[1..]) + rest;
      Assoc(EncodeOp(ops[0]), EncodeOps(ops[1..]), rest);
      OpRoundTrip(ops[0], tail);
      OpsRoundTrip(ops[1..], rest);
      assert ops == [ops[0]] + ops[1..];
    }
  }

  /** Decoding undoes encoding exactly for batches of at most 2^20 operations;
      a larger one is written without complaint and then refused. */
  lemma RoundTripIff(ops: Ops)
    requires Encodable(ops)
    ensures Decode(Encode(ops)) == if |ops| <= 1_048_576 then Ok(ops) else Err(InvalidFormat)
    ensures Decode(Encode(ops)) == Ok(ops) <==> |ops| <= 1_048_576
  {
    hide DecodeU32, DecodeOps, EncodeOps;
    RoundTripU32(|ops|, EncodeOps(ops));
    assert EncodeOps(ops) + [] == EncodeOps(ops);
    assert Encode(ops)[|Leb(|ops|)|..] == EncodeOps(ops) + [];
    OpsRoundTrip(ops, []);
  }

  /** Whatever bytes were accepted, the canonical bytes of the result decode to it too. */
  lemma ReencodingIsStable(s: seq<byte>)
    requires Decode(s).Ok?
    ensures Decode(Encode(Decode(s).value)) == Decode(s)
  {
    DecodedIsEncodable(s);
    RoundTripIff(Decode(s).value);
  }

  /** The encoding is not a proper prefix of any accepted string. */
  lemma TrailingBytesRefused(ops: Ops, extra: seq<byte>)
    requires Encodable(ops) && extra != []
    ensures Decode(Encode(ops) + extra) == Err(InvalidFormat)
  {
    hide DecodeU32, DecodeOps, EncodeOps;
    RoundTripU32(|ops|, EncodeOps(ops) + extra);
    var s := Encode(ops) + extra;
    Assoc(Leb(|ops|), EncodeOps(ops), extra);
    assert s[|Leb(|ops|)|..] == EncodeOps(ops) + extra;
    OpsRoundTrip(ops, extra);
  }
}
