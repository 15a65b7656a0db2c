/** Byte strings: little-endian integers, runs of zeros and the lexicographic
    order that every key comparison in the engine uses. */
module Bytes {

  type byte = b: int | 0 <= b < 256

  type Key = seq<byte>

  /** A 32-bit checksum taken as an arbitrary deterministic function. */
  type Checksum = seq<byte> -> u32

  type u16 = n: int | 0 <= n < 0x1_0000
  type u32 = n: int | 0 <= n < 0x1_0000_0000
  type u64 = n: int | 0 <= n < 0x1_0000_0000_0000_0000

  const U32_LIMIT: nat := 0x1_0000_0000
  const U64_LIMIT: nat := 0x1_0000_0000_0000_0000

  datatype Option<+T> = None | Some(value: T)

  datatype Result<+T> = Ok(value: T) | Err(error: Error)

  datatype Error = UnexpectedEof | VarintOverflow | NonCanonicalVarint | InvalidFormat | Corruption | ChecksumMismatch

  function Zeros(n: nat): (s: seq<byte>)
    ensures |s| == n && forall i :: 0 <= i < n ==> s[i] == 0
  {
    seq(n, _ => 0)
  }

  predicate AllZero(s: seq<byte>) {
    forall i :: 0 <= i < |s| ==> s[i] == 0
  }

  function Min(a: int, b: int): int { if a < b then a else b }

  function Max(a: int, b: int): int { if a < b then b else a }

  lemma Assoc<T>(a: seq<T>, b: seq<T>, c: seq<T>)
    ensures (a + b) + c == a + (b + c)
  {
  }

  lemma SliceMiddle<T>(a: seq<T>, b: seq<T>, c: seq<T>)
    ensures (a + b + c)[|a|..|a| + |b|] == b
  {
  }

  function Pow2(k: nat): (p: nat)
    ensures p > 0
  {
    if k == 0 then 1 else 2 * Pow2(k - 1)
  }

  // ----- little-endian integers -----

  function Pow256(k: nat): (p: nat)
    ensures p > 0
  {
    if k == 0 then 1 else 256 * Pow256(k - 1)
  }

  lemma Pow256Values()
    ensures Pow256(2) == 0x1_0000
    ensures Pow256(4) == U32_LIMIT
    ensures Pow256(8) == U64_LIMIT
  {
    assert Pow256(2) == 256 * Pow256(1);
    assert Pow256(3) == 256 * Pow256(2);
    assert Pow256(4) == 256 * Pow256(3);
    assert Pow256(5) == 256 * Pow256(4);
    assert Pow256(6) == 256 * Pow256(5);
    assert Pow256(7) == 256 * Pow256(6);
    assert Pow256(8) == 256 * Pow256(7);
  }

  function ToLe(v: nat, width: nat): (s: seq<byte>)
    ensures |s| == width
    decreases width
  {
    if width == 0 then [] else [v % 256] + ToLe(v / 256, width - 1)
  }

  function FromLe(s: seq<byte>): (v: nat)
    ensures v < Pow256(|s|)
  {
    if s == [] then 0 else s[0] + 256 * FromLe(s[1..])
  }

  lemma {:induction false} LeRoundTrip(v: nat, width: nat)
    requires v < Pow256(width)
    ensures FromLe(ToLe(v, width)) == v
    decreases width
  {
    if width > 0 {
      LeRoundTrip(v / 256, width - 1);
      assert ToLe(v, width)[1..] == ToLe(v / 256, width - 1);
    }
  }

  /** The first byte is the least significant, in every width that is stored. */
  lemma LittleEndian(s: seq<byte>)
    ensures |s| == 2 ==> FromLe(s) == s[0] as int + 0x100 * (s[1] as int)
    ensures |s| == 4 ==> FromLe(s) == s[0] as int + 0x100 * (s[1] as int) + 0x1_0000 * (s[2] as int) + 0x100_0000 * (s[3] as int)
    ensures |s| == 8 ==> FromLe(s) == FromLe(s[..4]) + 0x1_0000_0000 * FromLe(s[4..])
    decreases |s|
  {
    if |s| == 2 {
      assert FromLe(s[1..]) == s[1];
    } else if |s| == 4 {
      LittleEndian(s[2..]);
      assert s[1..][1..] == s[2..];
    } else if |s| == 8 {
      LittleEndian(s[..4]);
      assert s[1..][1..] == s[2..] && s[2..][1..] == s[3..] && s[3..][1..] == s[4..];
      assert FromLe(s[3..]) == s[3] + 256 * FromLe(s[4..]);
      assert FromLe(s[2..]) == s[2] + 256 * FromLe(s[3..]);
      assert FromLe(s[1..]) == s[1] + 256 * FromLe(s[2..]);
    }
  }

  lemma LowByte(b: byte, rest: nat)
    ensures (b + 256 * rest) % 256 == b && (b + 256 * rest) / 256 == rest
  {
  }

  lemma {:induction false} LeUnique(s: seq<byte>)
    ensures ToLe(FromLe(s), |s|) == s
  {
    if s != [] {
      var rest := FromLe(s[1..]);
      LeUnique(s[1..]);
      LowByte(s[0], rest);
      assert s == [s[0]] + s[1..];
    }
  }

  // ----- lexicographic order -----

  predicate Less(a: Key, b: Key) {
    b != [] && (a == [] || a[0] < b[0] || (a[0] == b[0] && Less(a[1..], b[1..])))
  }

  lemma {:induction false} LessIrreflexive(a: Key)
    ensures !Less(a, a)
  {
    if a != [] { LessIrreflexive(a[1..]); }
  }

  lemma {:induction false} LessTotal(a: Key, b: Key)
    ensures Less(a, b) || a == b || Less(b, a)
  {
    if a != [] && b != [] && a[0] == b[0] {
      LessTotal(a[1..], b[1..]);
      if a[1..] == b[1..] {
        assert a == [a[0]] + a[1..];
        assert b == [b[0]] + b[1..];
      }
    }
  }

  lemma {:induction false} LessTransitive(a: Key, b: Key, c: Key)
    requires Less(a, b) && Less(b, c)
    ensures Less(a, c)
  {
    if a != [] && a[0] == b[0] && b[0] == c[0] {
      LessTransitive(a[1..], b[1..], c[1..]);
    }
  }

  /** The order of the keys is the order of their bytes: at the first place where two
      keys differ the smaller byte decides, and a proper prefix comes first. */
  lemma {:induction false} LessIsLexicographic(a: Key, b: Key)
    ensures Less(a, b) <==>
      exists n: nat :: n <= |a| && n <= |b| && a[..n] == b[..n] && ((n == |a| && n < |b|) || (n < |a| && n < |b| && a[n] < b[n]))
  {
    if b == [] {
    } else if a == [] {
      assert a[..0] == b[..0];
    } else if a[0] != b[0] {
      assert a[..0] == b[..0];
      forall n: nat | 0 < n <= |a| && n <= |b| ensures a[..n] != b[..n] { assert a[..n][0] != b[..n][0]; }
    } else {
      var (x, y) := (a[1..], b[1..]);
      LessIsLexicographic(x, y);
      if Less(x, y) {
        var n: nat :| n <= |x| && n <= |y| && x[..n] == y[..n] && ((n == |x| && n < |y|) || (n < |x| && n < |y| && x[n] < y[n]));
        assert a[..n + 1] == [a[0]] + x[..n] && b[..n + 1] == [b[0]] + y[..n];
      }
      if n: nat :| n <= |a| && n <= |b| && a[..n] == b[..n] && ((n == |a| && n < |b|) || (n < |a| && n < |b| && a[n] < b[n])) {
        if n > 0 { assert x[..n - 1] == a[..n][1..] && y[..n - 1] == b[..n][1..]; }
      }
    }
  }
}
