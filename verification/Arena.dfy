/** The bump allocator behind the memtable. The system allocator is a parameter: it
    hands out a base address for each slab, eight-byte aligned and clear of the others. */
module Arena {
  import opened Bytes

  const INITIAL_SLAB_SIZE: nat := 256 * 1024
  const MAX_SLAB_SIZE: nat := 4 * 1024 * 1024
  const DEFAULT_ALIGN: nat := 8
  const SLAB_HEADER_SIZE: nat := 16

  datatype Slab = Slab(base: nat, capacity: nat)

  /** An allocation: which slab, and its offsets from the slab's base. */
  datatype Range = Range(slab: nat, start: nat, end: nat)

  predicate PowerOfTwo(n: nat) {
    n == 1 || (n > 1 && n % 2 == 0 && PowerOfTwo(n / 2))
  }

  function RoundUp(value: nat, multiple: nat): (r: nat)
    requires multiple >= 1
    ensures value <= r < value + multiple && r % multiple == 0
  {
    var rem := value % multiple;
    if rem == 0 then value
    else
      RoundUpIsMultiple(value, multiple);
      value + (multiple - rem)
  }

  lemma RoundUpIsMultiple(value: nat, multiple: nat)
    requires multiple >= 1 && value % multiple != 0
    ensures (value + (multiple - value % multiple)) % multiple == 0
  {
    var q := value / multiple;
    assert value + (multiple - value % multiple) == multiple * (q + 1);
    ModOfProduct(multiple, q + 1);
  }

  lemma {:induction false} ModOfProduct(m: nat, q: nat)
    requires m >= 1
    ensures (m * q) % m == 0
    decreases q
  {
    if q > 0 {
      ModOfProduct(m, q - 1);
      assert m * q == m * (q - 1) + m;
      AddModulus(m * (q - 1), m);
    }
  }

  lemma AddModulus(x: nat, m: nat)
    requires m >= 1
    ensures (x + m) % m == x % m
  {
    var q, r := x / m, x % m;
    assert x + m == m * (q + 1) + r;
    ModIs(x + m, m, q + 1, r);
  }

  lemma ModIs(x: nat, m: nat, q: nat, r: nat)
    requires m >= 1 && r < m && x == m * q + r
    ensures x % m == r
  {
    var d := x / m - q;
    assert m * (x / m) + x % m == x;
    assert m * d == r - x % m;
    MulSign(m, d);
  }

  lemma MulSign(m: nat, d: int)
    ensures d >= 1 ==> m * d >= m
    ensures d <= -1 ==> m * d + m <= 0
  {
  }

  /** Bytes set aside for a request. */
  function Request(size: nat, align: nat): (r: nat)
    requires align >= 1
    ensures size == 0 ==> r == 1
    ensures size > 0 ==> size <= r < size + align && r % align == 0
  {
    Max(RoundUp(size, align), 1)
  }

  function Reserved(slabs: seq<Slab>): nat {
    if slabs == [] then 0 else Reserved(slabs[..|slabs| - 1]) + slabs[|slabs| - 1].capacity
  }

  function Dispensed(given: seq<Range>): int {
    if given == [] then 0 else Dispensed(given[..|given| - 1]) + (given[|given| - 1].end - given[|given| - 1].start)
  }

  predicate SlabsApart(slabs: seq<Slab>) {
    && (forall i :: 0 <= i < |slabs| ==> slabs[i].base % DEFAULT_ALIGN == 0)
    && forall i, j :: 0 <= i < j < |slabs| ==> Clear(slabs[i], slabs[j])
  }

  predicate Clear(a: Slab, b: Slab) {
    a.base + a.capacity <= b.base || b.base + b.capacity <= a.base
  }

  /** Each allocation is inside its slab and past the slab's header. */
  predicate Inside(slabs: seq<Slab>, r: Range) {
    r.slab < |slabs| && SLAB_HEADER_SIZE <= r.start < r.end <= slabs[r.slab].capacity
  }

  /** Allocations in one slab follow each other. */
  predicate InOrder(given: seq<Range>) {
    forall i, j :: 0 <= i < j < |given| && given[i].slab == given[j].slab ==> given[i].end <= given[j].start
  }

  class BumpArena {
    var slabs: seq<Slab>      // the last one is the head
    var bump: nat             // first free offset in the head, past its header
    var nextSlabSize: nat
    var bytesUsed: nat
    var bytesReserved: nat
    ghost var given: seq<Range>

    ghost predicate Valid()
      reads this
    {
      && SlabsApart(slabs) && InOrder(given)
      && (forall i :: 0 <= i < |given| ==> Inside(slabs, given[i]))
      && (slabs == [] ==> bump == 0)
      && (slabs != [] ==> bump + SLAB_HEADER_SIZE <= slabs[|slabs| - 1].capacity)
      && (forall i :: 0 <= i < |given| && given[i].slab == |slabs| - 1 ==> given[i].end <= SLAB_HEADER_SIZE + bump)
      && bytesReserved == Reserved(slabs) && bytesUsed == Dispensed(given)
      && bytesUsed <= (if slabs == [] then 0 else Reserved(slabs[..|slabs| - 1])) + bump
    }

    constructor ()
      ensures Valid() && given == [] && slabs == [] && bump == bytesUsed == bytesReserved == 0
      ensures nextSlabSize == 262144
    {
      slabs, bump, nextSlabSize, bytesUsed, bytesReserved := [], 0, INITIAL_SLAB_SIZE, 0, 0;
      given := [];
    }

    /** The first offset an allocation could take in the head slab. */
    function Free(align: nat): nat
      requires align >= 1
      reads this
    {
      RoundUp(SLAB_HEADER_SIZE + bump, align)
    }

    /** The head slab has `req` bytes left from there. */
    predicate HasRoom(req: nat, align: nat)
      requires align >= 1
      reads this
    {
      slabs != [] && Free(align) + req <= slabs[|slabs| - 1].capacity
    }

    /** Space in the head slab, exactly when there is enough. */
    method TryAllocate(req: nat, align: nat) returns (ptr: Option<nat>)
      requires Valid() && req >= 1 && align >= 1
      modifies this`bump, this`bytesUsed, this`given
      ensures Valid()
      ensures ptr.Some? <==> slabs != [] && RoundUp(16 + old(bump), align) + req <= slabs[|slabs| - 1].capacity
      ensures ptr.None? ==> given == old(given) && bump == old(bump) && bytesUsed == old(bytesUsed)
      ensures ptr.Some? ==>
        var start := RoundUp(16 + old(bump), align);
        && given == old(given) + [Range(|slabs| - 1, start, start + req)]
        && ptr.value == slabs[|slabs| - 1].base + start
        && bump == start + req - SLAB_HEADER_SIZE && bytesUsed == old(bytesUsed) + req
    {
      hide RoundUp;
      if slabs == [] {
        return None;
      }
      var slab := slabs[|slabs| - 1];
      var start := RoundUp(SLAB_HEADER_SIZE + bump, align);
      var end := start + req;
      if end > slab.capacity {
        return None;
      }
      bump := end - SLAB_HEADER_SIZE;
      bytesUsed := bytesUsed + req;
      ghost var was := given;
      given := given + [Range(|slabs| - 1, start, end)];
      assert given[..|was|] == was;
      return Some(slab.base + start);
    }

    /** A new head slab. `base` is what the system allocator returned. */
    method Grow(capacity: nat, base: nat)
      requires Valid() && capacity >= SLAB_HEADER_SIZE
      requires base % DEFAULT_ALIGN == 0 && forall i :: 0 <= i < |slabs| ==> Clear(slabs[i], Slab(base, capacity))
      modifies this
      ensures Valid() && given == old(given) && bytesUsed == old(bytesUsed)
      ensures slabs == old(slabs) + [Slab(base, capacity)] && bump == 0
      ensures nextSlabSize == Min(2 * old(nextSlabSize), 4194304)
    {
      hide InOrder, Dispensed, Reserved, SlabsApart;
      ghost var was := slabs;
      slabs := slabs + [Slab(base, capacity)];
      assert slabs[..|was|] == was;
      ReservedSplit(was);
      ReservedSplit(slabs);
      OneMoreSlab(was, Slab(base, capacity));
      forall i | 0 <= i < |given| ensures Inside(slabs, given[i]) { assert Inside(was, given[i]); }
      bump := 0;
      bytesReserved := bytesReserved + capacity;
      nextSlabSize := if 2 * nextSlabSize < MAX_SLAB_SIZE then 2 * nextSlabSize else MAX_SLAB_SIZE;
    }

    /** Size of the slab a request that does not fit asks for. */
    function Want(size: nat, align: nat): nat
      requires align >= 1
      reads this
    {
      Max(Request(size, align) + SLAB_HEADER_SIZE + align, nextSlabSize)
    }

    /** At most one new slab, of the wanted size, and then the request fits at once.
        The range starts at the first aligned offset past the earlier ones. The
        address is aligned exactly when the slab's base is, so always up to eight bytes. */
    method Allocate(size: nat, align: nat, base: nat) returns (ptr: nat)
      requires Valid() && PowerOfTwo(align)
      requires !HasRoom(Request(size, align), align) ==>
        base % DEFAULT_ALIGN == 0 && forall i :: 0 <= i < |slabs| ==> Clear(slabs[i], Slab(base, Want(size, align)))
      modifies this
      ensures Valid()
      ensures old(HasRoom(Request(size, align), align)) ==> slabs == old(slabs) && nextSlabSize == old(nextSlabSize)
      ensures !old(HasRoom(Request(size, align), align)) ==>
        slabs == old(slabs) + [Slab(base, Max(Request(size, align) + 16 + align, old(nextSlabSize)))] && nextSlabSize == Min(2 * old(nextSlabSize), 4194304)
      ensures slabs != []
      ensures old(HasRoom(Request(size, align), align)) <==>
        old(slabs) != [] && RoundUp(16 + old(bump), align) + Request(size, align) <= old(slabs)[|old(slabs)| - 1].capacity
      ensures var start := RoundUp(if old(HasRoom(Request(size, align), align)) then 16 + old(bump) else 16, align);
        && given == old(given) + [Range(|slabs| - 1, start, start + Request(size, align))]
        && ptr == slabs[|slabs| - 1].base + start
        && bump == start + Request(size, align) - 16
      ensures ptr % align == 0 <==> slabs[|slabs| - 1].base % align == 0
      ensures align <= 8 ==> ptr % align == 0
      ensures bytesUsed == old(bytesUsed) + Request(size, align) <= bytesReserved
    {
      hide RoundUp, Clear, Valid, PowerOfTwo;
      var req := Request(size, align);
      var first := TryAllocate(req, align);
      if first.None? {
        Grow(Want(size, align), base);
        first := TryAllocate(req, align);
      }
      UsedWithinReserved();
      ptr := first.value;
      BasesAligned();
      AlignedIff(slabs[|slabs| - 1].base, given[|given| - 1].start, align);
      if align <= DEFAULT_ALIGN {
        SmallAlignments(slabs[|slabs| - 1].base, given[|given| - 1].start, align);
      }
    }

    lemma BasesAligned()
      requires Valid()
      ensures slabs != [] ==> slabs[|slabs| - 1].base % DEFAULT_ALIGN == 0
    {
      hide InOrder, Inside, Dispensed, Reserved, Clear;
    }

    /** What was dispensed fits in what is held. */
    lemma UsedWithinReserved()
      requires Valid()
      ensures bytesUsed <= bytesReserved
    {
      hide SlabsApart, InOrder, Inside, Dispensed;
      ReservedSplit(slabs);
    }
  }

  lemma ReservedSplit(slabs: seq<Slab>)
    ensures slabs == [] ==> Reserved(slabs) == 0
    ensures slabs != [] ==> Reserved(slabs) == Reserved(slabs[..|slabs| - 1]) + slabs[|slabs| - 1].capacity
  {
  }

  lemma OneMoreSlab(slabs: seq<Slab>, s: Slab)
    requires SlabsApart(slabs) && s.base % DEFAULT_ALIGN == 0 && forall i :: 0 <= i < |slabs| ==> Clear(slabs[i], s)
    ensures SlabsApart(slabs + [s])
  {
    hide Clear;
  }

  function Address(slabs: seq<Slab>, slab: nat, offset: nat): nat {
    (if slab < |slabs| then slabs[slab].base else 0) + offset
  }

  /** Any two allocations occupy disjoint addresses. */
  lemma AllocationsApart(slabs: seq<Slab>, given: seq<Range>, i: nat, j: nat)
    requires SlabsApart(slabs) && InOrder(given) && forall k :: 0 <= k < |given| ==> Inside(slabs, given[k])
    requires i < j < |given|
    ensures var a, b := given[i], given[j];
      Address(slabs, a.slab, a.end) <= Address(slabs, b.slab, b.start) || Address(slabs, b.slab, b.end) <= Address(slabs, a.slab, a.start)
  {
    var a, b := given[i], given[j];
    assert Inside(slabs, a) && Inside(slabs, b);
    if a.slab < b.slab {
      assert Clear(slabs[a.slab], slabs[b.slab]);
    } else if b.slab < a.slab {
      assert Clear(slabs[b.slab], slabs[a.slab]);
    }
  }

  /** The returned address is aligned exactly when the slab's base is. */
  lemma AlignedIff(base: nat, start: nat, align: nat)
    requires align >= 1 && start % align == 0
    ensures (base + start) % align == 0 <==> base % align == 0
  {
    ModAddMultiple(base, start / align, align);
    assert start == align * (start / align);
  }

  lemma {:induction false} ModAddMultiple(x: nat, q: nat, m: nat)
    requires m >= 1
    ensures (x + m * q) % m == x % m
    decreases q
  {
    if q > 0 {
      ModAddMultiple(x, q - 1, m);
      assert x + m * q == (x + m * (q - 1)) + m;
      AddModulus(x + m * (q - 1), m);
    }
  }

  /** Up to eight bytes every power of two is safe; above that the slab's base decides. */
  lemma SmallAlignments(base: nat, start: nat, align: nat)
    requires PowerOfTwo(align) && align <= DEFAULT_ALIGN && start % align == 0 && base % DEFAULT_ALIGN == 0
    ensures (base + start) % align == 0
  {
    SmallPowers(align);
    MultiplesOfEight(base);
    AlignedIff(base, start, align);
  }

  lemma MultiplesOfEight(base: nat)
    requires base % 8 == 0
    ensures base % 1 == 0 && base % 2 == 0 && base % 4 == 0
  {
    var q := base / 8;
    assert base == 8 * q;
    ModIs(base, 1, 8 * q, 0);
    ModIs(base, 2, 4 * q, 0);
    ModIs(base, 4, 2 * q, 0);
  }

  lemma SmallPowers(n: nat)
    requires PowerOfTwo(n) && n <= 8
    ensures n == 1 || n == 2 || n == 4 || n == 8
  {
    assert !PowerOfTwo(3) && !PowerOfTwo(6);
  }

  /** Sixteen-byte alignment is not guaranteed: the first allocation of a fresh arena
      whose slab the system placed at address 8. */
  method SixteenMayMisalign() returns (arena: BumpArena, ptr: nat)
    ensures fresh(arena) && arena.Valid() && arena.slabs == [Slab(8, 262144)]
    ensures arena.given == [Range(0, 16, 32)] && ptr == 24 && ptr % 16 != 0
  {
    assert PowerOfTwo(2) && PowerOfTwo(4) && PowerOfTwo(8) && PowerOfTwo(16);
    arena := new BumpArena();
    ptr := arena.Allocate(16, 16, 8);
  }
}
