/** LEB128 variable-length unsigned integers, as section 7.6 of DWARF 5
    ("Variable Length Data") describes them. */
module Varint {
  import opened Bytes

  const MAX_U32_BYTES: nat := 5
  const MAX_U64_BYTES: nat := 10

  /** Reference encoding: seven bits a byte, low group first, the top bit set on
      every byte but the last. */
  function Leb(v: nat): (s: seq<byte>)
    ensures |s| >= 1
  {
    if v < 128 then [v] else [v % 128 + 128] + Leb(v / 128)
  }

  /** Value of a string of seven-bit groups, continuation bits ignored. */
  function LebValue(s: seq<byte>): nat {
    if s == [] then 0 else s[0] % 128 + 128 * LebValue(s[1..])
  }

  function Pow128(k: nat): (p: nat)
    ensures p > 0
  {
    if k == 0 then 1 else 128 * Pow128(k - 1)
  }

  /** Index of the first byte without a continuation bit, |s| when there is none. */
  function Terminator(s: seq<byte>): (t: nat)
    ensures t <= |s|
    ensures forall i :: 0 <= i < t ==> s[i] >= 128
    ensures t < |s| ==> s[t] < 128
  {
    if s == [] || s[0] < 128 then 0 else 1 + Terminator(s[1..])
  }

  /** Decoding with a byte limit and a limit on the payload of the last byte. */
  function Decode(s: seq<byte>, maxBytes: nat, top: nat): (r: Result<(nat, nat)>)
    requires maxBytes >= 1
    ensures r.Ok? ==> 1 <= r.value.1 <= |s|
  {
    var t := Terminator(s);
    if |s| >= maxBytes && t >= maxBytes - 1 && s[maxBytes - 1] % 128 > top then Err(VarintOverflow)
    else if t < |s| && t < maxBytes then Ok((LebValue(s[..t + 1]), t + 1))
    else if |s| < maxBytes then Err(UnexpectedEof)
    else Err(VarintOverflow)
  }

  function DecodeU64(s: seq<byte>): (r: Result<(nat, nat)>)
    ensures r.Ok? ==> 1 <= r.value.1 <= |s|
  {
    Decode(s, MAX_U64_BYTES, 0x01)
  }

  function DecodeU32(s: seq<byte>): (r: Result<(nat, nat)>)
    ensures r.Ok? ==> 1 <= r.value.1 <= |s|
  {
    Decode(s, MAX_U32_BYTES, 0x0F)
  }

  /** The decoder that also refuses a padded (non-minimal) encoding. */
  function DecodeCanonical(s: seq<byte>): (r: Result<(nat, nat)>) {
    match DecodeU64(s)
    case Ok((v, n)) => if n > 1 && s[n - 1] == 0 then Err(NonCanonicalVarint) else Ok((v, n))
    case Err(e) => Err(e)
  }

  function BitLength(v: nat): nat {
    if v == 0 then 0 else 1 + BitLength(v / 2)
  }

  /** Predicted encoded size: one byte per started group of seven bits. */
  function VarintLen(v: nat): nat {
    var bits := BitLength(v);
    if bits == 0 then 1 else (bits + 6) / 7
  }

  // ----- the loops of the source -----

  /** Writes into the caller's buffer; `None` exactly when it is too short. */
  method EncodeU64(value: u64, buf: array<byte>) returns (written: Option<nat>)
    modifies buf
    ensures written.Some? <==> |Leb(value)| <= buf.Length
    ensures written.Some? ==> written.value == |Leb(value)| && buf[..] == Leb(value) + old(buf[..])[|Leb(value)|..]
    ensures written.None? ==> buf[..] == Leb(value)[..buf.Length]
  {
    hide Leb;
    var v: nat := value;
    var i := 0;
    ghost var done: seq<byte> := [];
    assert done + Leb(value) == Leb(value);
    while v >= 0x80
      invariant |done| == i <= buf.Length && buf[..i] == done
      invariant done + Leb(v) == Leb(value)
      invariant forall k :: i <= k < buf.Length ==> buf[k] == old(buf[k])
    {
      LebStep(v);
      if i >= buf.Length {
        assert Leb(value)[..i] == done;
        return None;
      }
      Assoc(done, [v % 128 + 128], Leb(v / 128));
      buf[i] := v % 128 + 0x80;
      done := done + [v % 128 + 128];
      v := v / 128;
      i := i + 1;
    }
    LebStep(v);
    if i >= buf.Length {
      assert Leb(value)[..i] == done;
      return None;
    }
    buf[i] := v;
    assert buf[..i + 1] == done + [v] == Leb(value);
    assert buf[i + 1..] == old(buf[..])[i + 1..];
    assert buf[..] == buf[..i + 1] + buf[i + 1..];
    return Some(i + 1);
  }

  lemma LebStep(v: nat)
    ensures Leb(v) == if v < 128 then [v] else [v % 128 + 128] + Leb(v / 128)
  {
  }

  /** The decode loop. The payload of a byte lands above every bit already in
      `result`, so the source's bitwise or is the sum written here. */
  method DecodeLoop(input: seq<byte>, maxBytes: nat, top: nat) returns (r: Result<(nat, nat)>)
    requires maxBytes >= 1
    ensures r == Decode(input, maxBytes, top)
  {
    var result, scale, i := 0, 1, 0;
    while i < |input| && i < maxBytes
      invariant i <= |input| && i <= maxBytes
      invariant i <= Terminator(input)
      invariant result == LebValue(input[..i]) && scale == Pow128(i)
      invariant i == maxBytes ==> input[maxBytes - 1] % 128 <= top
    {
      var b := input[i];
      var payload := b % 128;
      if i == maxBytes - 1 && payload > top {
        return Err(VarintOverflow);
      }
      LebValueAppend(input[..i], b);
      assert input[..i + 1] == input[..i] + [b];
      result := result + payload * scale;
      if b < 128 {
        return Ok((result, i + 1));
      }
      scale := scale * 128;
      i := i + 1;
    }
    return Err(if |input| < maxBytes then UnexpectedEof else VarintOverflow);
  }

  // ----- properties -----

  lemma {:induction false} LebValueAppend(s: seq<byte>, b: byte)
    ensures LebValue(s + [b]) == LebValue(s) + b % 128 * Pow128(|s|)
  {
    if s == [] {
      assert [b][1..] == [];
    } else {
      assert (s + [b])[1..] == s[1..] + [b];
      LebValueAppend(s[1..], b);
      var p := Pow128(|s| - 1);
      assert 128 * (b % 128 * p) == b % 128 * (128 * p);
    }
  }

  lemma {:induction false} LebTerminator(v: nat, rest: seq<byte>)
    ensures Terminator(Leb(v) + rest) == |Leb(v)| - 1
  {
    if v >= 128 {
      LebTerminator(v / 128, rest);
      assert (Leb(v) + rest)[1..] == Leb(v / 128) + rest;
    }
  }

  lemma {:induction false} LebCarries(v: nat)
    ensures LebValue(Leb(v)) == v
    ensures |Leb(v)| > 1 ==> Leb(v)[|Leb(v)| - 1] != 0
  {
    if v >= 128 {
      LebCarries(v / 128);
      assert Leb(v)[1..] == Leb(v / 128);
    } else {
      assert Leb(v)[1..] == [];
    }
  }

  /** The encoder's bytes have one terminator, at the end, and carry the value. */
  lemma LebShape(v: nat, rest: seq<byte>)
    ensures Terminator(Leb(v) + rest) == |Leb(v)| - 1
    ensures LebValue(Leb(v)) == v
    ensures |Leb(v)| > 1 ==> Leb(v)[|Leb(v)| - 1] != 0
  {
    hide Leb, LebValue, Terminator;
    LebTerminator(v, rest);
    LebCarries(v);
  }

  /** A value below bound * 128^(k-1) takes at most k bytes; at k bytes its last
      byte is below the bound. */
  lemma {:induction false} LebSize(v: nat, k: nat, bound: nat)
    requires k >= 1 && 1 <= bound <= 128 && v < bound * Pow128(k - 1)
    ensures |Leb(v)| <= k
    ensures |Leb(v)| == k ==> Leb(v)[k - 1] < bound
    decreases k
  {
    if k == 1 {
    } else {
      assert bound * Pow128(k - 1) == 128 * (bound * Pow128(k - 2));
      if v >= 128 {
        LebSize(v / 128, k - 1, bound);
      }
    }
  }

  /** Round trip at any byte limit, whatever follows in the buffer. */
  lemma DecodeLeb(v: nat, rest: seq<byte>, maxBytes: nat, top: nat)
    requires maxBytes >= 1 && top < 128 && v < (top + 1) * Pow128(maxBytes - 1)
    ensures Decode(Leb(v) + rest, maxBytes, top) == Ok((v, |Leb(v)|))
  {
    LebShape(v, rest);
    LebSize(v, maxBytes, top + 1);
    assert (Leb(v) + rest)[..|Leb(v)|] == Leb(v);
  }

  lemma Pow128Values()
    ensures Pow128(4) == 0x1000_0000
    ensures Pow128(9) == 0x8000_0000_0000_0000
  {
    assert Pow128(1) == 128;
    assert Pow128(2) == 128 * Pow128(1);
    assert Pow128(3) == 128 * Pow128(2);
    assert Pow128(4) == 128 * Pow128(3);
    assert Pow128(5) == 128 * Pow128(4);
    assert Pow128(6) == 128 * Pow128(5);
    assert Pow128(7) == 128 * Pow128(6);
    assert Pow128(8) == 128 * Pow128(7);
    assert Pow128(9) == 128 * Pow128(8);
  }

  lemma RoundTripU64(v: u64, rest: seq<byte>)
    ensures DecodeU64(Leb(v) + rest) == Ok((v, |Leb(v)|))
    ensures |Leb(v)| <= MAX_U64_BYTES
  {
    Pow128Values();
    DecodeLeb(v, rest, MAX_U64_BYTES, 0x01);
  }

  lemma RoundTripU32(v: u32, rest: seq<byte>)
    ensures DecodeU32(Leb(v) + rest) == Ok((v, |Leb(v)|))
    ensures |Leb(v)| <= MAX_U32_BYTES
  {
    Pow128Values();
    DecodeLeb(v, rest, MAX_U32_BYTES, 0x0F);
  }

  lemma {:induction false} LebValueBound(s: seq<byte>, top: nat)
    requires s != [] && s[|s| - 1] % 128 <= top
    ensures LebValue(s) < (top + 1) * Pow128(|s| - 1)
  {
    if |s| > 1 {
      LebValueBound(s[1..], top);
      var p := Pow128(|s| - 2);
      assert 128 * ((top + 1) * p) == (top + 1) * (128 * p);
    } else {
      assert s[1..] == [];
    }
  }

  lemma {:induction false} LebValueShort(s: seq<byte>)
    ensures LebValue(s) < Pow128(|s|)
  {
    if s != [] { LebValueShort(s[1..]); }
  }

  lemma {:induction false} Pow128Monotone(i: nat, j: nat)
    requires i <= j
    ensures Pow128(i) <= Pow128(j)
    decreases j
  {
    if i < j { Pow128Monotone(i, j - 1); }
  }

  /** No accepted input overflows the integer it is decoded into. */
  lemma DecodeInRange(s: seq<byte>, maxBytes: nat, top: nat)
    requires maxBytes >= 1 && Decode(s, maxBytes, top).Ok?
    ensures Decode(s, maxBytes, top).value.0 < (top + 1) * Pow128(maxBytes - 1)
  {
    var n := Terminator(s) + 1;
    if n == maxBytes {
      LebValueBound(s[..n], top);
    } else {
      LebValueShort(s[..n]);
      Pow128Monotone(n, maxBytes - 1);
      assert Pow128(maxBytes - 1) <= (top + 1) * Pow128(maxBytes - 1);
    }
  }

  lemma DecodeU32InRange(s: seq<byte>)
    requires DecodeU32(s).Ok?
    ensures DecodeU32(s).value.0 < U32_LIMIT
  {
    Pow128Values();
    DecodeInRange(s, MAX_U32_BYTES, 0x0F);
  }

  lemma {:induction false} BitLengthShift(v: nat)
    requires v >= 128
    ensures BitLength(v) == 7 + BitLength(v / 128)
  {
    var a := v / 2;
    var b := a / 2;
    var c := b / 2;
    var d := c / 2;
    var e := d / 2;
    var f := e / 2;
    assert f / 2 == v / 128;
    assert BitLength(v) == 1 + BitLength(a);
    assert BitLength(a) == 1 + BitLength(b);
    assert BitLength(b) == 1 + BitLength(c);
    assert BitLength(c) == 1 + BitLength(d);
    assert BitLength(d) == 1 + BitLength(e);
    assert BitLength(e) == 1 + BitLength(f);
  }

  lemma {:induction false} BitLengthSmall(v: nat, k: nat)
    requires v < Pow2(k)
    ensures BitLength(v) <= k
  {
    if v > 0 { BitLengthSmall(v / 2, k - 1); }
  }

  /** The predicted size is the size written. */
  lemma {:induction false} LengthIsPredicted(v: nat)
    ensures |Leb(v)| == VarintLen(v)
  {
    if v >= 128 {
      LengthIsPredicted(v / 128);
      BitLengthShift(v);
      assert BitLength(v / 128) >= 1;
    } else {
      assert Pow2(7) == 2 * Pow2(6) && Pow2(6) == 2 * Pow2(5) && Pow2(5) == 2 * Pow2(4);
      BitLengthSmall(v, 7);
    }
  }

  /** A minimal string of groups is the encoding of its own value. */
  lemma {:induction false} LebOfValue(s: seq<byte>)
    requires s != [] && Terminator(s) == |s| - 1
    requires |s| > 1 ==> s[|s| - 1] != 0
    ensures Leb(LebValue(s)) == s
    ensures |s| > 1 ==> LebValue(s) >= 128
  {
    if |s| > 1 {
      LebOfValue(s[1..]);
      assert LebValue(s[1..]) >= 1 by {
        if |s| == 2 { assert s[1..][1..] == []; }
      }
      assert LebValue(s) / 128 == LebValue(s[1..]);
    } else {
      assert s[1..] == [];
    }
  }

  lemma {:induction false} TerminatorPrefix(s: seq<byte>, n: nat)
    requires n <= |s| && Terminator(s) < n
    ensures Terminator(s[..n]) == Terminator(s)
  {
    if s[0] >= 128 {
      TerminatorPrefix(s[1..], n - 1);
      assert s[..n][1..] == s[1..][..n - 1];
    }
  }

  lemma CanonicalIsEncoding(s: seq<byte>, v: nat, n: nat)
    requires DecodeCanonical(s) == Ok((v, n))
    ensures v < U64_LIMIT && n == |Leb(v)| && Leb(v) <= s
  {
    Pow128Values();
    DecodeInRange(s, MAX_U64_BYTES, 0x01);
    TerminatorPrefix(s, n);
    LebOfValue(s[..n]);
    assert s[..n] <= s;
  }

  lemma EncodingIsCanonical(s: seq<byte>, v: nat)
    requires v < U64_LIMIT && Leb(v) <= s
    ensures DecodeCanonical(s) == Ok((v, |Leb(v)|))
  {
    var rest := s[|Leb(v)|..];
    assert s == Leb(v) + rest;
    RoundTripU64(v, rest);
    LebShape(v, rest);
  }

  /** Canonical decoding accepts exactly the encoder's outputs. */
  lemma CanonicalIff(s: seq<byte>, v: nat, n: nat)
    ensures DecodeCanonical(s) == Ok((v, n)) <==> v < U64_LIMIT && n == |Leb(v)| && Leb(v) <= s
  {
    if DecodeCanonical(s) == Ok((v, n)) {
      CanonicalIsEncoding(s, v, n);
    } else if v < U64_LIMIT && Leb(v) <= s {
      EncodingIsCanonical(s, v);
    }
  }
}
