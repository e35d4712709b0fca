/** The bump allocator of include/lna_arena.h and src/lna_arena.c.

    The arena is modelled by offsets only: `base` (the caller's memory) and the
    bytes stored there are left out, and a returned pointer `base + k` is the
    offset `k`. */
module LnaArena {
  import opened LnaNumber
  import opened Arith

  // ---------------------------------------------------------------------------
  // Size macros: `(u64)(n) << k`, i.e. n * 2^k reduced modulo 2^64.
  // ---------------------------------------------------------------------------

  function KiB(n: u64): (r: u64)
    ensures r % 0x400 == 0
    ensures (n * 0x400 - r) % U64_MODULUS == 0
    ensures n * 0x400 < U64_MODULUS ==> r / 0x400 == n
  {
    WrapU64(n * 0x400)
  }

  function MiB(n: u64): (r: u64)
    ensures r % 0x10_0000 == 0
    ensures (n * 0x10_0000 - r) % U64_MODULUS == 0
    ensures n * 0x10_0000 < U64_MODULUS ==> r / 0x10_0000 == n
  {
    WrapU64(n * 0x10_0000)
  }

  function GiB(n: u64): (r: u64)
    ensures r % 0x4000_0000 == 0
    ensures (n * 0x4000_0000 - r) % U64_MODULUS == 0
    ensures n * 0x4000_0000 < U64_MODULUS ==> r / 0x4000_0000 == n
  {
    WrapU64(n * 0x4000_0000)
  }

  // ---------------------------------------------------------------------------
  // Alignment
  // ---------------------------------------------------------------------------

  predicate IsPow2(p: nat)
  {
    if p <= 1 then p == 1 else p % 2 == 0 && IsPow2(p / 2)
  }

  /** ARENA_ALIGN is sizeof(void*). The model fixes the 64-bit value 8; a 32-bit
      target has 4. Every property below holds for either (any power of two). */
  const ARENA_ALIGN: nat := 8

  lemma PointerSizesArePow2()
    ensures IsPow2(ARENA_ALIGN) && IsPow2(4)
  {
    assert IsPow2(2) && IsPow2(4);
  }

  /** Clearing the low bits of s with the mask `~(p-1)`, p a power of two: the
      largest multiple of p not above s. */
  function RoundDown(s: nat, p: nat): (r: nat)
    requires p > 0
    ensures r % p == 0
    ensures r <= s < r + p
  {
    var q, m := s / p, s % p;
    assert s == q * p + m && 0 <= m < p;
    DivModUnique(s - m, p, q, 0);
    s - m
  }

  /** ALIGN_UP_POW2(n, p) over unbounded integers: round n + p - 1 down to a
      multiple of p. */
  function AlignUp(n: nat, p: nat): (r: nat)
    requires IsPow2(p)
    ensures r % p == 0
    ensures n <= r < n + p
    ensures n % p == 0 ==> r == n
  {
    if n % p == 0 then
      assert n == (n / p) * p;
      DivModUnique(n + p - 1, p, n / p, p - 1);
      RoundDown(n + p - 1, p)
    else
      RoundDown(n + p - 1, p)
  }

  /** AlignUp(n, p) is the least multiple of p that is at least n. */
  lemma AlignUpLeast(n: nat, p: nat, m: nat)
    requires IsPow2(p) && n <= m && m % p == 0
    ensures AlignUp(n, p) <= m
  {
    var r := AlignUp(n, p);
    if r > m {
      DivModUnique(r, p, r / p, 0);
      DivModUnique(m, p, m / p, 0);
      assert r / p > m / p;
      assert r - m == (r / p - m / p) * p;
      MulAtLeast(r / p - m / p, p);
    }
  }

  /** Aligning twice is aligning once. */
  lemma AlignUpIdempotent(n: nat, p: nat)
    requires IsPow2(p)
    ensures AlignUp(AlignUp(n, p), p) == AlignUp(n, p)
  {
  }

  /** The macro as C evaluates it: `n + (p - 1)` is u64 arithmetic and wraps. */
  function AlignUpU64(n: u64, p: u64): (r: u64)
    requires IsPow2(p)
    ensures r % p == 0
    ensures n + p - 1 < U64_MODULUS ==> r == AlignUp(n, p)
  {
    RoundDown(WrapU64(n + p - 1), p)
  }

  // ---------------------------------------------------------------------------
  // The arena record and its operations
  // ---------------------------------------------------------------------------

  /** ml_arena without its base pointer: a capacity and a bump position, in bytes. */
  datatype Arena = Arena(capacity: u64, pos: u64)
  {
    /** The allocator's invariant: the bump position never passes the capacity. */
    predicate Valid()
    {
      pos <= capacity
    }
  }

  /** A pointer into the arena: NULL, or `base + offset`. */
  datatype Pointer = Null | At(offset: u64)

  /** What push_ml_arena leaves behind: the arena and the pointer it returned. */
  datatype Pushed = Pushed(arena: Arena, ptr: Pointer)

  function CreateArena(capacity: u64): (a: Arena)
    ensures a.Valid()
    ensures a.capacity == capacity
    ensures FreeMem(a) == capacity
  {
    Arena(capacity, 0)
  }

  /** The room test a push makes: the aligned region of `size` bytes ends within
      the capacity. */
  predicate Fits(a: Arena, size: nat)
  {
    PointerSizesArePow2();
    AlignUp(a.pos, ARENA_ALIGN) + size <= a.capacity
  }

  function Push(a: Arena, size: u64): (r: Pushed)
    ensures r.ptr.At? <==> Fits(a, size)
    ensures r.ptr.Null? ==> r.arena == a
    ensures r.ptr.At? ==>
              && r.ptr.offset % ARENA_ALIGN == 0
              && a.pos <= r.ptr.offset < a.pos + ARENA_ALIGN
              && r.arena == Arena(a.capacity, r.ptr.offset + size)
    ensures a.Valid() ==> r.arena.Valid()
  {
    PointerSizesArePow2();
    var aligned := AlignUp(a.pos, ARENA_ALIGN);
    if aligned > a.capacity then Pushed(a, Null)
    else
      // the guard above is what keeps this u64 subtraction from wrapping
      var room: u64 := a.capacity - aligned;
      if size > room then Pushed(a, Null)
      else Pushed(Arena(a.capacity, aligned + size), At(aligned))
  }

  /** push_ml_arena exactly as written: the alignment on line 14 is computed in
      u64 and wraps to a small value when `pos` lies within ARENA_ALIGN - 1 of
      2^64. `Push` above is the corrected allocator the rest of the model uses. */
  function PushAsWritten(a: Arena, size: u64): (r: Pushed)
    ensures a.pos + ARENA_ALIGN - 1 < U64_MODULUS ==> r == Push(a, size)
  {
    PointerSizesArePow2();
    var aligned := AlignUpU64(a.pos, ARENA_ALIGN);
    if aligned > a.capacity then Pushed(a, Null)
    else
      var room: u64 := a.capacity - aligned;
      if size > room then Pushed(a, Null)
      else Pushed(Arena(a.capacity, aligned + size), At(aligned))
  }

  /** The wrap-around is observable: with the position two bytes below 2^64 the
      as-written push hands out offset 0, below the position, so the region
      overlaps memory handed out earlier; the corrected push refuses. */
  lemma PushAsWrittenReusesMemory()
    ensures var a := Arena(U64_MODULUS - 1, U64_MODULUS - 2);
            && a.Valid()
            && PushAsWritten(a, 1) == Pushed(Arena(a.capacity, 1), At(0))
            && PushAsWritten(a, 1).ptr.offset < a.pos
            && Push(a, 1).ptr.Null?
  {
    PointerSizesArePow2();
    var a := Arena(U64_MODULUS - 1, U64_MODULUS - 2);
    assert WrapU64(a.pos + ARENA_ALIGN - 1) == 5;
    assert RoundDown(5, ARENA_ALIGN) == 0;
  }

  function Pop(a: Arena, size: u64): (r: Arena)
    ensures r.capacity == a.capacity
    ensures r.pos <= a.pos
    ensures a.pos <= r.pos + size
    ensures r.pos == 0 || r.pos + size == a.pos
    ensures a.Valid() ==> r.Valid()
  {
    if size >= a.pos then Arena(a.capacity, 0)
    else Arena(a.capacity, a.pos - size)
  }

  function FreeMem(a: Arena): (r: u64)
    ensures a.Valid() ==> r + a.pos == a.capacity
  {
    WrapU64(a.capacity - a.pos)
  }

  // ---------------------------------------------------------------------------
  // Properties relating several calls
  // ---------------------------------------------------------------------------

  /** A push succeeds exactly when the padding plus the request fit in the free
      bytes, and a successful push uses up exactly those bytes. */
  lemma PushUsesFreeMem(a: Arena, size: u64)
    requires a.Valid()
    ensures var pad := AlignUp(a.pos, ARENA_ALIGN) - a.pos;
            && (Push(a, size).ptr.At? <==> pad + size <= FreeMem(a))
            && (Push(a, size).ptr.At? ==> FreeMem(Push(a, size).arena) + pad + size == FreeMem(a))
  {
    PointerSizesArePow2();
  }

  /** Two successive successful pushes hand out disjoint regions, the second
      starting at or after the end of the first. */
  lemma SuccessivePushesDisjoint(a: Arena, s1: u64, s2: u64)
    ensures var p1 := Push(a, s1);
            var p2 := Push(p1.arena, s2);
            p1.ptr.At? && p2.ptr.At? ==> p1.ptr.offset + s1 <= p2.ptr.offset
  {
  }

  /** Popping the size just pushed rewinds to the start of that region, which is
      the old position rounded up: alignment padding is not given back. */
  lemma PopAfterPush(a: Arena, size: u64)
    requires Push(a, size).ptr.At?
    ensures Pop(Push(a, size).arena, size) == Arena(a.capacity, Push(a, size).ptr.offset)
    ensures a.pos % ARENA_ALIGN == 0 ==> Pop(Push(a, size).arena, size) == a
  {
    PointerSizesArePow2();
    var r := Push(a, size);
    if size == 0 {
      assert r.arena.pos == r.ptr.offset;
    }
  }

  // ---------------------------------------------------------------------------
  // A sequence of pushes
  // ---------------------------------------------------------------------------

  datatype Pushes = Pushes(arena: Arena, ptrs: seq<Pointer>)

  /** Push every size in order, collecting the returned pointers. */
  function PushAll(a: Arena, sizes: seq<u64>): (r: Pushes)
    ensures |r.ptrs| == |sizes|
    decreases |sizes|
  {
    if |sizes| == 0 then Pushes(a, [])
    else
      var first := Push(a, sizes[0]);
      var rest := PushAll(first.arena, sizes[1..]);
      Pushes(rest.arena, [first.ptr] + rest.ptrs)
  }

  /** Every region a sequence of pushes hands out lies between the starting
      position and the final position, which stays within the capacity. */
  lemma {:induction false} PushAllBounds(a: Arena, sizes: seq<u64>)
    requires a.Valid()
    ensures var r := PushAll(a, sizes);
            && r.arena.Valid()
            && r.arena.capacity == a.capacity
            && a.pos <= r.arena.pos
            && forall i :: 0 <= i < |sizes| && r.ptrs[i].At? ==>
                 a.pos <= r.ptrs[i].offset && r.ptrs[i].offset + sizes[i] <= r.arena.pos
    decreases |sizes|
  {
    if |sizes| > 0 {
      var first := Push(a, sizes[0]);
      PushAllBounds(first.arena, sizes[1..]);
      var r := PushAll(a, sizes);
      forall i | 0 <= i < |sizes| && r.ptrs[i].At?
        ensures a.pos <= r.ptrs[i].offset && r.ptrs[i].offset + sizes[i] <= r.arena.pos
      {
        if i > 0 {
          assert r.ptrs[i] == PushAll(first.arena, sizes[1..]).ptrs[i - 1];
        }
      }
    }
  }

  /** Successful pushes of a sequence are pairwise disjoint and in increasing
      order of address. */
  lemma {:induction false} PushAllDisjoint(a: Arena, sizes: seq<u64>)
    requires a.Valid()
    ensures var r := PushAll(a, sizes);
            forall i, j :: 0 <= i < j < |sizes| && r.ptrs[i].At? && r.ptrs[j].At? ==>
              r.ptrs[i].offset + sizes[i] <= r.ptrs[j].offset
    decreases |sizes|
  {
    if |sizes| > 0 {
      var first := Push(a, sizes[0]);
      var rest := PushAll(first.arena, sizes[1..]);
      PushAllDisjoint(first.arena, sizes[1..]);
      PushAllBounds(first.arena, sizes[1..]);
      var r := PushAll(a, sizes);
      forall i, j | 0 <= i < j < |sizes| && r.ptrs[i].At? && r.ptrs[j].At?
        ensures r.ptrs[i].offset + sizes[i] <= r.ptrs[j].offset
      {
        assert r.ptrs[j] == rest.ptrs[j - 1];
        if i > 0 {
          assert r.ptrs[i] == rest.ptrs[i - 1];
        }
      }
    }
  }

  /** Bytes a push of each size can take, counting the worst-case padding. */
  function Budget(sizes: seq<u64>): nat
  {
    if |sizes| == 0 then 0 else sizes[0] + (ARENA_ALIGN - 1) + Budget(sizes[1..])
  }

  /** When the requests plus worst-case padding fit in the free bytes, every
      push of the sequence succeeds. */
  lemma {:induction false} PushAllSucceeds(a: Arena, sizes: seq<u64>)
    requires a.pos + Budget(sizes) <= a.capacity
    ensures forall i :: 0 <= i < |sizes| ==> PushAll(a, sizes).ptrs[i].At?
    ensures PushAll(a, sizes).arena.pos <= a.pos + Budget(sizes)
    decreases |sizes|
  {
    if |sizes| > 0 {
      var first := Push(a, sizes[0]);
      assert first.ptr.At?;
      PushAllSucceeds(first.arena, sizes[1..]);
      var r := PushAll(a, sizes);
      forall i | 0 <= i < |sizes| ensures r.ptrs[i].At? {
        if i > 0 {
          assert r.ptrs[i] == PushAll(first.arena, sizes[1..]).ptrs[i - 1];
        }
      }
    }
  }
}
