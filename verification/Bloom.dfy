/** The cache-line-blocked Bloom filter of a table. All bits of a key live in one
    64-byte block. The key hash is an arbitrary deterministic function. */
module Bloom {
  import opened Bytes

  type Hash = Key -> u64

  const MAGIC: nat := 0xB100_0F11
  const VERSION: nat := 1
  const HEADER: nat := 16
  const BLOCK_BYTES: nat := 64
  const BLOCK_BITS: nat := 512

  // ----- bits of a natural number -----

  predicate Bit(n: nat, i: nat)
    decreases i
  {
    if i == 0 then n % 2 == 1 else Bit(n / 2, i - 1)
  }

  /** `n | (1 << i)` */
  function SetBit(n: nat, i: nat): nat
    decreases i
  {
    if i == 0 then n - n % 2 + 1 else 2 * SetBit(n / 2, i - 1) + n % 2
  }

  /** Bitwise exclusive or. */
  function Xor(a: nat, b: nat): nat
    decreases a + b
  {
    if a == 0 && b == 0 then 0 else (a % 2 + b % 2) % 2 + 2 * Xor(a / 2, b / 2)
  }

  lemma {:induction false} SetBitMeaning(n: nat, i: nat, j: nat)
    ensures Bit(SetBit(n, i), j) <==> Bit(n, j) || i == j
    decreases i
  {
    if i == 0 {
      if j > 0 { assert SetBit(n, 0) / 2 == n / 2; }
    } else if j > 0 {
      assert SetBit(n, i) / 2 == SetBit(n / 2, i - 1);
      SetBitMeaning(n / 2, i - 1, j - 1);
    }
  }

  lemma {:induction false} SetBitBound(n: nat, i: nat, k: nat)
    requires n < Pow2(k) && i < k
    ensures SetBit(n, i) < Pow2(k)
    decreases i
  {
    if i > 0 { SetBitBound(n / 2, i - 1, k - 1); }
  }

  lemma Pow2Of8()
    ensures Pow2(8) == 256
  {
    assert Pow2(4) == 2 * Pow2(3) == 16;
    assert Pow2(8) == 2 * Pow2(7) && Pow2(7) == 2 * Pow2(6) && Pow2(6) == 2 * Pow2(5);
  }

  // ----- where a key's bits go -----

  /** Multiply-shift on the low half of the hash. */
  function PickBlock(hash: u64, numBlocks: nat): nat {
    hash % U32_LIMIT * numBlocks / U32_LIMIT
  }

  lemma PickBlockInRange(hash: u64, numBlocks: nat)
    requires numBlocks >= 1
    ensures PickBlock(hash, numBlocks) < numBlocks
  {
    var low := hash % U32_LIMIT;
    MulStrict(low, U32_LIMIT, numBlocks);
    DivBound(low * numBlocks, U32_LIMIT, numBlocks);
  }

  lemma MulStrict(a: nat, c: nat, n: nat)
    requires a < c && n > 0
    ensures a * n < c * n
  {
  }

  lemma DivBound(x: nat, c: nat, n: nat)
    requires c > 0 && x < c * n
    ensures x / c < n
  {
    assert x == c * (x / c) + x % c;
    if x / c >= n { MulMonotone(c, n, x / c); }
  }

  lemma MulMonotone(c: nat, m: nat, n: nat)
    requires m <= n
    ensures c * m <= c * n
  {
  }

  /** The stride between a key's bits, mixed from the high half of the hash. */
  function Stride(high: nat): nat {
    var m := high * 0x9E37_79B9 % U32_LIMIT;
    Xor(m, m / 0x1_0000) * 0x85EB_CA6B % U32_LIMIT
  }

  lemma {:induction false} XorBits(a: nat, b: nat, i: nat)
    ensures Bit(Xor(a, b), i) <==> Bit(a, i) != Bit(b, i)
    decreases i
  {
    if i == 0 {
      assert Xor(a, b) % 2 == (a % 2 + b % 2) % 2;
    } else {
      assert Xor(a, b) / 2 == Xor(a / 2, b / 2);
      XorBits(a / 2, b / 2, i - 1);
    }
  }

  /** The mixing of the stride: multiply, fold the upper half onto the lower with an
      exclusive or, multiply again, all in 32 bits. */
  lemma StrideMixes(high: nat)
    ensures var m := high * 0x9E37_79B9 % 0x1_0000_0000;
      exists x: nat :: Stride(high) == x * 0x85EB_CA6B % 0x1_0000_0000 && forall i: nat :: Bit(x, i) <==> Bit(m, i) != Bit(m / 0x1_0000, i)
  {
    hide Xor, Bit;
    var m := high * 0x9E37_79B9 % 0x1_0000_0000;
    var x := Xor(m, m / 0x1_0000);
    forall i: nat ensures Bit(x, i) <==> Bit(m, i) != Bit(m / 0x1_0000, i) { XorBits(m, m / 0x1_0000, i); }
    assert Stride(high) == x * 0x85EB_CA6B % 0x1_0000_0000;
  }

  /** Double hashing: bit `i` of a key. */
  function BitPosition(hash: u64, i: nat): (p: nat)
    ensures p < BLOCK_BITS
  {
    var high := hash / U32_LIMIT;
    (high + i * Stride(high)) % BLOCK_BITS
  }

  function Positions(hash: u64, k: nat): (ps: seq<nat>)
    ensures |ps| == k && forall i :: 0 <= i < k ==> ps[i] == BitPosition(hash, i)
  {
    seq(k, i requires 0 <= i < k => BitPosition(hash, i))
  }

  /** Wrapping at 32 bits does not disturb the low nine bits. */
  lemma WrapKeepsLowBits(x: nat)
    ensures x % U32_LIMIT % BLOCK_BITS == x % BLOCK_BITS
  {
    var q := x / U32_LIMIT;
    assert x == x % U32_LIMIT + BLOCK_BITS * (0x80_0000 * q);
    ModAdd(x % U32_LIMIT, 0x80_0000 * q);
  }

  lemma {:induction false} ModAdd(a: nat, q: nat)
    ensures (a + BLOCK_BITS * q) % BLOCK_BITS == a % BLOCK_BITS
    decreases q
  {
    if q > 0 { ModAdd(a, q - 1); }
  }

  /** The loop adds the stride with wrap-around and masks. */
  method BitPositions(hash: u64, k: nat) returns (ps: seq<nat>)
    ensures ps == Positions(hash, k)
  {
    hide Stride;
    var high := hash / U32_LIMIT;
    var a, b := high, Stride(high);
    ps := [];
    for i := 0 to k
      invariant ps == Positions(hash, k)[..i]
      invariant a == (high + i * b) % U32_LIMIT
    {
      WrapKeepsLowBits(high + i * b);
      ps := ps + [a % BLOCK_BITS];
      NextWrap(high + i * b, b);
      a := (a + b) % U32_LIMIT;
      assert high + i * b + b == high + (i + 1) * b;
    }
  }

  lemma NextWrap(x: nat, b: nat)
    ensures (x % U32_LIMIT + b) % U32_LIMIT == (x + b) % U32_LIMIT
  {
  }

  // ----- the filter -----

  datatype Filter = Filter(blocks: seq<byte>, numBlocks: nat, numKeys: nat, numHashes: nat, bitsPerKey: nat)

  predicate WellFormed(f: Filter) {
    && |f.blocks| == BLOCK_BYTES * f.numBlocks
    && 1 <= f.numBlocks < U32_LIMIT && f.numKeys < U32_LIMIT
    && 1 <= f.numHashes <= 16 && f.bitsPerKey < 256
  }

  /** Sized for an expected number of keys, and never empty. */
  function NewFilter(expectedKeys: nat, numHashes: nat, bitsPerKey: nat): (f: Filter)
    requires 1 <= numHashes <= 16 && bitsPerKey < 256
    ensures WellFormed(f)
  {
    var bits := Max(expectedKeys, 1) * bitsPerKey;
    var wanted := (bits + BLOCK_BITS - 1) / BLOCK_BITS;
    var n := Max(Min(wanted, U32_LIMIT - 1), 1);
    Filter(Zeros(BLOCK_BYTES * n), n, 0, numHashes, bitsPerKey)
  }

  predicate BitIn(blocks: seq<byte>, base: nat, pos: nat) {
    base + pos / 8 < |blocks| && Bit(blocks[base + pos / 8], pos % 8)
  }

  function SetIn(blocks: seq<byte>, base: nat, pos: nat): (b: seq<byte>)
    requires pos < BLOCK_BITS && base + BLOCK_BYTES <= |blocks|
    ensures |b| == |blocks|
  {
    var i := base + pos / 8;
    SetBitIsByte(blocks[i], pos % 8);
    blocks[i := SetBit(blocks[i], pos % 8)]
  }

  lemma SetBitIsByte(n: byte, i: nat)
    requires i < 8
    ensures SetBit(n, i) < 256
  {
    Pow2Of8();
    SetBitBound(n, i, 8);
  }

  function SetAllIn(blocks: seq<byte>, base: nat, ps: seq<nat>): (b: seq<byte>)
    requires base + BLOCK_BYTES <= |blocks| && forall i :: 0 <= i < |ps| ==> ps[i] < BLOCK_BITS
    ensures |b| == |blocks|
  {
    if ps == [] then blocks else SetIn(SetAllIn(blocks, base, ps[..|ps| - 1]), base, ps[|ps| - 1])
  }

  function Insert(h: Hash, f: Filter, key: Key): (g: Filter)
    requires WellFormed(f)
    ensures WellFormed(g) && g.numBlocks == f.numBlocks && g.numHashes == f.numHashes
  {
    var b := PickBlock(h(key), f.numBlocks);
    PickBlockInRange(h(key), f.numBlocks);
    f.(blocks := SetAllIn(f.blocks, BLOCK_BYTES * b, Positions(h(key), f.numHashes)),
       numKeys := Min(f.numKeys + 1, U32_LIMIT - 1))
  }

  function InsertAll(h: Hash, f: Filter, keys: seq<Key>): (g: Filter)
    requires WellFormed(f)
    ensures WellFormed(g) && g.numBlocks == f.numBlocks && g.numHashes == f.numHashes
  {
    if keys == [] then f else Insert(h, InsertAll(h, f, keys[..|keys| - 1]), keys[|keys| - 1])
  }

  /** Every position of the list is set in the block at `base`. */
  predicate ProbeScalar(blocks: seq<byte>, base: nat, ps: seq<nat>) {
    forall i :: 0 <= i < |ps| ==> BitIn(blocks, base, ps[i])
  }

  predicate Contains(h: Hash, f: Filter, key: Key) {
    ProbeScalar(f.blocks, BLOCK_BYTES * PickBlock(h(key), f.numBlocks), Positions(h(key), f.numHashes))
  }

  // ----- the filter object -----

  class BlockedBloom {
    const numBlocks: nat
    const numHashes: nat
    const bitsPerKey: nat
    const blocks: array<byte>
    var numKeys: nat

    ghost function View(): Filter
      reads this, blocks
    {
      Filter(blocks[..], numBlocks, numKeys, numHashes, bitsPerKey)
    }

    constructor (expectedKeys: nat, numHashes: nat, bitsPerKey: nat)
      requires 1 <= numHashes <= 16 && bitsPerKey < 256
      ensures View() == NewFilter(expectedKeys, numHashes, bitsPerKey) && fresh(blocks)
    {
      var f := NewFilter(expectedKeys, numHashes, bitsPerKey);
      this.numBlocks, this.numHashes, this.bitsPerKey := f.numBlocks, numHashes, bitsPerKey;
      blocks := new byte[BLOCK_BYTES * f.numBlocks](_ => 0);
      numKeys := 0;
      new;
      assert blocks[..] == Zeros(BLOCK_BYTES * numBlocks);
    }

    method InsertKey(h: Hash, key: Key)
      requires WellFormed(View())
      modifies this, blocks
      ensures View() == Insert(h, old(View()), key)
    {
      hide PickBlock, Positions, SetBit;
      var block := PickBlock(h(key), numBlocks);
      PickBlockInRange(h(key), numBlocks);
      var positions := BitPositions(h(key), numHashes);
      ghost var was := blocks[..];
      var base := BLOCK_BYTES * block;
      assert base + BLOCK_BYTES <= blocks.Length;
      for i := 0 to |positions|
        invariant blocks[..] == SetAllIn(was, base, positions[..i])
        invariant numKeys == old(numKeys)
      {
        hide WellFormed, Insert;
        var at := base + positions[i] / 8;
        SetBitIsByte(blocks[at], positions[i] % 8);
        assert positions[..i + 1][..i] == positions[..i];
        ghost var now := blocks[..];
        blocks[at] := SetBit(blocks[at], positions[i] % 8);
        assert blocks[..] == now[at := SetBit(now[at], positions[i] % 8)] == SetIn(now, base, positions[i]);
      }
      assert positions[..|positions|] == positions;
      numKeys := if numKeys + 1 < U32_LIMIT then numKeys + 1 else U32_LIMIT - 1;
    }

    method ContainsKey(h: Hash, key: Key) returns (found: bool)
      requires WellFormed(View())
      ensures found <==> Contains(h, View(), key)
    {
      hide PickBlock, BitPosition, Bit;
      var block := PickBlock(h(key), numBlocks);
      PickBlockInRange(h(key), numBlocks);
      var positions := BitPositions(h(key), numHashes);
      var base := BLOCK_BYTES * block;
      ghost var all := blocks[..];
      for i := 0 to |positions|
        invariant forall j :: 0 <= j < i ==> BitIn(all, base, positions[j])
      {
        var at := base + positions[i] / 8;
        assert blocks[at] == all[at];
        if !Bit(blocks[at], positions[i] % 8) {
          assert !BitIn(all, base, positions[i]);
          return false;
        }
      }
      return true;
    }
  }

  // ----- no false negatives, and no stray bits -----

  lemma SetInMeaning(blocks: seq<byte>, base: nat, pos: nat, base': nat, pos': nat)
    requires pos < BLOCK_BITS && base + BLOCK_BYTES <= |blocks| && pos' < BLOCK_BITS
    requires base % BLOCK_BYTES == 0 && base' % BLOCK_BYTES == 0
    ensures BitIn(SetIn(blocks, base, pos), base', pos') <==> BitIn(blocks, base', pos') || (base == base' && pos == pos')
  {
    hide Bit, SetBit;
    var i, j := base + pos / 8, base' + pos' / 8;
    if i == j {
      SetBitMeaning(blocks[i], pos % 8, pos' % 8);
    }
  }

  lemma {:induction false} SetAllInMeaning(blocks: seq<byte>, base: nat, ps: seq<nat>, base': nat, pos': nat)
    requires base + BLOCK_BYTES <= |blocks| && pos' < BLOCK_BITS
    requires forall i :: 0 <= i < |ps| ==> ps[i] < BLOCK_BITS
    requires base % BLOCK_BYTES == 0 && base' % BLOCK_BYTES == 0
    ensures BitIn(SetAllIn(blocks, base, ps), base', pos') <==> BitIn(blocks, base', pos') || (base == base' && pos' in ps)
  {
    hide BitIn, SetIn;
    if ps != [] {
      var front := ps[..|ps| - 1];
      SetAllInMeaning(blocks, base, front, base', pos');
      SetInMeaning(SetAllIn(blocks, base, front), base, ps[|ps| - 1], base', pos');
      assert ps == front + [ps[|ps| - 1]];
    }
  }

  /** A key puts bit `pos` into block `b`. */
  predicate Sets(h: Hash, f: Filter, key: Key, b: nat, pos: nat) {
    PickBlock(h(key), f.numBlocks) == b && pos in Positions(h(key), f.numHashes)
  }

  lemma InsertMeaning(h: Hash, f: Filter, key: Key, b: nat, pos: nat)
    requires WellFormed(f) && pos < BLOCK_BITS
    ensures BitIn(Insert(h, f, key).blocks, BLOCK_BYTES * b, pos) <==>
      BitIn(f.blocks, BLOCK_BYTES * b, pos) || Sets(h, f, key, b, pos)
  {
    hide PickBlock, Positions, BitIn, SetAllIn;
    PickBlockInRange(h(key), f.numBlocks);
    SetAllInMeaning(f.blocks, BLOCK_BYTES * PickBlock(h(key), f.numBlocks), Positions(h(key), f.numHashes), BLOCK_BYTES * b, pos);
  }

  /** The stored key count is the number of insertions, up to the 32-bit maximum. */
  lemma {:induction false} KeysCounted(h: Hash, f: Filter, keys: seq<Key>)
    requires WellFormed(f)
    ensures InsertAll(h, f, keys).numKeys == Min(f.numKeys + |keys|, 0xFFFF_FFFF)
  {
    if keys != [] { KeysCounted(h, f, keys[..|keys| - 1]); }
  }

  predicate SomeSets(h: Hash, f: Filter, keys: seq<Key>, b: nat, pos: nat) {
    exists i :: 0 <= i < |keys| && Sets(h, f, keys[i], b, pos)
  }

  lemma SomeSetsAppend(h: Hash, f: Filter, keys: seq<Key>, key: Key, b: nat, pos: nat)
    ensures SomeSets(h, f, keys + [key], b, pos) <==> SomeSets(h, f, keys, b, pos) || Sets(h, f, key, b, pos)
  {
    hide Sets;
    var more := keys + [key];
    assert more[|keys|] == key;
    if SomeSets(h, f, keys, b, pos) {
      var i :| 0 <= i < |keys| && Sets(h, f, keys[i], b, pos);
      assert more[i] == keys[i];
    }
  }

  lemma {:induction false} InsertAllMeaning(h: Hash, f: Filter, keys: seq<Key>, b: nat, pos: nat)
    requires WellFormed(f) && pos < BLOCK_BITS
    ensures BitIn(InsertAll(h, f, keys).blocks, BLOCK_BYTES * b, pos) <==>
      BitIn(f.blocks, BLOCK_BYTES * b, pos) || SomeSets(h, f, keys, b, pos)
  {
    hide PickBlock, Positions, BitIn, Insert, SomeSets;
    if keys == [] {
      assert !SomeSets(h, f, [], b, pos) by { NoneSets(h, f, b, pos); }
    } else {
      var front, last := keys[..|keys| - 1], keys[|keys| - 1];
      InsertAllMeaning(h, f, front, b, pos);
      InsertMeaning(h, InsertAll(h, f, front), last, b, pos);
      assert keys == front + [last];
      SomeSetsAppend(h, f, front, last, b, pos);
    }
  }

  lemma NoneSets(h: Hash, f: Filter, b: nat, pos: nat)
    ensures !SomeSets(h, f, [], b, pos)
  {
  }

  /** A filter that started empty answers yes exactly when inserted keys of the same
      block cover every bit of the key. */
  lemma ContainsIff(h: Hash, f: Filter, keys: seq<Key>, key: Key)
    requires WellFormed(f) && AllZero(f.blocks)
    ensures Contains(h, InsertAll(h, f, keys), key) <==>
      forall i :: 0 <= i < f.numHashes ==> Covered(h, f, keys, key, i)
  {
    hide PickBlock, BitPosition, BitIn, InsertAll, SomeSets;
    var b := PickBlock(h(key), f.numBlocks);
    var g := InsertAll(h, f, keys);
    var ps := Positions(h(key), f.numHashes);
    forall i | 0 <= i < f.numHashes
      ensures BitIn(g.blocks, BLOCK_BYTES * b, ps[i]) <==> Covered(h, f, keys, key, i)
    {
      InsertAllMeaning(h, f, keys, b, ps[i]);
      ZeroHasNoBits(f.blocks, BLOCK_BYTES * b, ps[i]);
    }
  }

  /** Bit `i` of the key is also a bit of some listed key of the same block. */
  predicate Covered(h: Hash, f: Filter, keys: seq<Key>, key: Key, i: nat) {
    SomeSets(h, f, keys, PickBlock(h(key), f.numBlocks), BitPosition(h(key), i))
  }

  lemma ZeroHasNoBits(blocks: seq<byte>, base: nat, pos: nat)
    requires AllZero(blocks)
    ensures !BitIn(blocks, base, pos)
  {
    ZeroBits(pos % 8);
  }

  lemma {:induction false} ZeroBits(i: nat)
    ensures !Bit(0, i)
  {
    if i > 0 { ZeroBits(i - 1); }
  }

  /** Every inserted key is reported present. */
  lemma NoFalseNegatives(h: Hash, f: Filter, keys: seq<Key>, key: Key)
    requires WellFormed(f) && key in keys
    ensures Contains(h, InsertAll(h, f, keys), key)
  {
    hide PickBlock, BitPosition, BitIn, InsertAll;
    var b := PickBlock(h(key), f.numBlocks);
    var ps := Positions(h(key), f.numHashes);
    forall i | 0 <= i < |ps|
      ensures BitIn(InsertAll(h, f, keys).blocks, BLOCK_BYTES * b, ps[i])
    {
      InsertAllMeaning(h, f, keys, b, ps[i]);
      var j :| 0 <= j < |keys| && keys[j] == key;
      assert Sets(h, f, keys[j], b, ps[i]);
    }
  }

  // ----- on disk -----

  function Encode(f: Filter): seq<byte>
    requires WellFormed(f)
  {
    ToLe(MAGIC, 4) + [VERSION, f.numHashes, f.bitsPerKey, 0] + ToLe(f.numBlocks, 4) + ToLe(f.numKeys, 4) + f.blocks
  }

  function Decode(bytes: seq<byte>): Result<Filter> {
    if |bytes| < HEADER then Err(InvalidFormat)
    else if FromLe(bytes[0..4]) != MAGIC || bytes[4] != VERSION then Err(InvalidFormat)
    else
      var numBlocks, numKeys := FromLe(bytes[8..12]), FromLe(bytes[12..16]);
      if bytes[5] == 0 || bytes[5] > 16 || numBlocks == 0 || |bytes| != HEADER + numBlocks * BLOCK_BYTES then Err(InvalidFormat)
      else Ok(Filter(bytes[HEADER..], numBlocks, numKeys, bytes[5], bytes[6]))
  }

  lemma EncodeSlices(f: Filter)
    requires WellFormed(f)
    ensures var bytes := Encode(f);
      && |bytes| == HEADER + |f.blocks| && bytes[0..4] == ToLe(MAGIC, 4)
      && bytes[4] == VERSION && bytes[5] == f.numHashes && bytes[6] == f.bitsPerKey
      && bytes[8..12] == ToLe(f.numBlocks, 4) && bytes[12..16] == ToLe(f.numKeys, 4) && bytes[HEADER..] == f.blocks
  {
    hide ToLe;
  }

  lemma DecodeEncode(f: Filter)
    requires WellFormed(f)
    ensures Decode(Encode(f)) == Ok(f)
  {
    hide ToLe, FromLe, Encode;
    EncodeSlices(f);
    Pow256Values();
    LeRoundTrip(MAGIC, 4);
    LeRoundTrip(f.numBlocks, 4);
    LeRoundTrip(f.numKeys, 4);
  }

  /** Whatever decodes is a filter that can be queried, and re-encodes to the same
      bytes up to the reserved one. */
  lemma DecodedIsWellFormed(bytes: seq<byte>)
    requires Decode(bytes).Ok?
    ensures |bytes| >= HEADER && WellFormed(Decode(bytes).value) && Encode(Decode(bytes).value) == bytes[7 := 0]
  {
    hide ToLe, FromLe;
    Pow256Values();
    LeUnique(bytes[0..4]);
    LeUnique(bytes[8..12]);
    LeUnique(bytes[12..16]);
    assert bytes[7 := 0] == bytes[0..4] + [bytes[4], bytes[5], bytes[6], 0] + bytes[8..12] + bytes[12..16] + bytes[HEADER..];
  }

  /** A stored filter still reports every key of its table. */
  lemma StoredFilterHasKeys(h: Hash, f: Filter, keys: seq<Key>, key: Key)
    requires WellFormed(f) && key in keys
    ensures var stored := Decode(Encode(InsertAll(h, f, keys)));
      stored.Ok? && Contains(h, stored.value, key)
  {
    hide *;
    DecodeEncode(InsertAll(h, f, keys));
    NoFalseNegatives(h, f, keys, key);
  }

  // ----- the wide probe -----

  /** A 64-byte block as eight little-endian words. */
  function Word(blocks: seq<byte>, base: nat, w: nat): nat
    requires w < 8 && base + BLOCK_BYTES <= |blocks|
  {
    FromLe(blocks[base + 8 * w..base + 8 * w + 8])
  }

  /** Mask words with the bits of the positions set. */
  function Mask(ps: seq<nat>): (m: seq<nat>)
    requires forall i :: 0 <= i < |ps| ==> ps[i] < BLOCK_BITS
    ensures |m| == 8
  {
    if ps == [] then [0, 0, 0, 0, 0, 0, 0, 0]
    else
      var m, p := Mask(ps[..|ps| - 1]), ps[|ps| - 1];
      m[p / 64 := SetBit(m[p / 64], p % 64)]
  }

  method BuildMask(ps: seq<nat>) returns (m: seq<nat>)
    requires forall i :: 0 <= i < |ps| ==> ps[i] < BLOCK_BITS
    ensures m == Mask(ps)
  {
    hide SetBit;
    var low, high := [0, 0, 0, 0], [0, 0, 0, 0];
    for i := 0 to |ps|
      invariant |low| == 4 && |high| == 4 && low + high == Mask(ps[..i])
    {
      var word := ps[i] / 64;
      assert ps[..i + 1][..i] == ps[..i];
      ghost var m := Mask(ps[..i]);
      if word < 4 {
        assert m[word] == low[word];
        low := low[word := SetBit(low[word], ps[i] % 64)];
      } else {
        assert m[word] == high[word - 4];
        high := high[word - 4 := SetBit(high[word - 4], ps[i] % 64)];
      }
    }
    assert ps[..|ps|] == ps;
    m := low + high;
  }

  /** Every bit of the mask word is set in the block word. */
  predicate SubsetOf(mask: nat, word: nat) {
    forall i :: 0 <= i < 64 ==> (Bit(mask, i) ==> Bit(word, i))
  }

  predicate ProbeWide(blocks: seq<byte>, base: nat, ps: seq<nat>)
    requires base + BLOCK_BYTES <= |blocks| && forall i :: 0 <= i < |ps| ==> ps[i] < BLOCK_BITS
  {
    forall w :: 0 <= w < 8 ==> SubsetOf(Mask(ps)[w], Word(blocks, base, w))
  }

  lemma {:induction false} MaskMeaning(ps: seq<nat>, w: nat, i: nat)
    requires (forall j :: 0 <= j < |ps| ==> ps[j] < BLOCK_BITS) && w < 8 && i < 64
    ensures Bit(Mask(ps)[w], i) <==> 64 * w + i in ps
  {
    hide SetBit, Bit;
    if ps == [] {
      ZeroBits(i);
    } else {
      var front, p := ps[..|ps| - 1], ps[|ps| - 1];
      MaskMeaning(front, w, i);
      assert ps == front + [p];
      SetBitMeaning(Mask(front)[p / 64], p % 64, i);
    }
  }

  lemma {:induction false} BitOfSum(a: nat, b: nat, k: nat, i: nat)
    requires a < Pow2(k)
    ensures Bit(a + Pow2(k) * b, i) == if i < k then Bit(a, i) else Bit(b, i - k)
    decreases k
  {
    if k > 0 {
      var n := a + Pow2(k) * b;
      assert Pow2(k) * b == 2 * (Pow2(k - 1) * b);
      assert n % 2 == a % 2 && n / 2 == a / 2 + Pow2(k - 1) * b;
      if i > 0 { BitOfSum(a / 2, b, k - 1, i - 1); }
    }
  }

  lemma {:induction false} BitOfLe(s: seq<byte>, i: nat)
    requires i < 8 * |s|
    ensures Bit(FromLe(s), i) == Bit(s[i / 8], i % 8)
  {
    hide Bit;
    Pow2Of8();
    BitOfSum(s[0], FromLe(s[1..]), 8, i);
    if i >= 8 {
      BitOfLe(s[1..], i - 8);
      assert (i - 8) / 8 == i / 8 - 1 && (i - 8) % 8 == i % 8;
    }
  }

  lemma WordBit(blocks: seq<byte>, base: nat, w: nat, i: nat)
    requires w < 8 && i < 64 && base + BLOCK_BYTES <= |blocks|
    ensures Bit(Word(blocks, base, w), i) <==> BitIn(blocks, base, 64 * w + i)
  {
    hide Bit, FromLe;
    BitOfLe(blocks[base + 8 * w..base + 8 * w + 8], i);
    assert (64 * w + i) / 8 == 8 * w + i / 8 && (64 * w + i) % 8 == i % 8;
  }

  /** The wide mask test and the bit-by-bit probe always agree. */
  lemma ProbesAgree(blocks: seq<byte>, base: nat, ps: seq<nat>)
    requires base + BLOCK_BYTES <= |blocks| && forall i :: 0 <= i < |ps| ==> ps[i] < BLOCK_BITS
    ensures ProbeWide(blocks, base, ps) <==> ProbeScalar(blocks, base, ps)
  {
    hide Bit, Word, Mask, BitIn;
    forall w, i | 0 <= w < 8 && 0 <= i < 64
      ensures Bit(Mask(ps)[w], i) <==> 64 * w + i in ps
      ensures Bit(Word(blocks, base, w), i) <==> BitIn(blocks, base, 64 * w + i)
    {
      MaskMeaning(ps, w, i);
      WordBit(blocks, base, w, i);
    }
    if ProbeWide(blocks, base, ps) {
      forall j | 0 <= j < |ps| ensures BitIn(blocks, base, ps[j]) {
        var w, i := ps[j] / 64, ps[j] % 64;
        assert 64 * w + i == ps[j] && ps[j] in ps;
        assert Bit(Mask(ps)[w], i) && SubsetOf(Mask(ps)[w], Word(blocks, base, w));
      }
    }
  }
}
