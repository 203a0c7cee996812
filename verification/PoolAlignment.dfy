/** Which alignments the pool's addresses have.  allocate rounds sizes and bump offsets to the requested alignment,
    but blocks are only 64-byte aligned, medium and large objects come from plain operator new, and recycled objects
    keep the place they were first given. */
module PoolAlignment {
  import opened Words
  import opened SizeClass
  import opened Rounding
  import opened MemoryPool
  import opened PoolPartition

  /** If the call can happen, what it returns is aligned as requested. */
  ghost predicate AlignedCall(w: World, bytes: nat, e: nat, os: nat) {
    Shape(w.pool) && Reachable(w) && Enabled(w, Alloc(bytes, e, os)) ==>
      Allocated(w.pool, bytes, e, os).1 % Pow2(e) == 0
  }

  lemma SixteenIsAligned(w: World, bytes: nat, e: nat, os: nat)
    requires e <= 4
    ensures AlignedCall(w, bytes, e, os)
  {
    if Shape(w.pool) && Reachable(w) && Enabled(w, Alloc(bytes, e, os)) {
      ReachableInv(w);
      AllocKept(w, bytes, e, os);
      var w' := Step(w, Alloc(bytes, e, os));
      var addr := Allocated(w.pool, bytes, e, os).1;
      assert Sits(w'.pool.bump, addr, w'.slots[addr]);
      assert Pow2(4) == 16;
      PowDivides(addr, e, 4);
    }
  }

  const BASE: nat := 0xC000_0000_0000_0000

  const HIGH: seq<nat> := [BASE, BASE + BLOCK_SIZE, BASE + 2 * BLOCK_SIZE, BASE + 3 * BLOCK_SIZE]

  lemma HighIsReachable()
    ensures Reachable(Start(HIGH))
  {
    var w := Start(HIGH);
    assert Exec(w, []) == w;
    assert GoodBlocks(HIGH);
    assert Reaches(HIGH, [], w);
  }

  /** A pool whose blocks lie high up, and memory at address 16 for a large object. */
  lemma LargeIsNot(e: nat)
    requires 5 <= e <= 63
    ensures !AlignedCall(Start(HIGH), 8192, e, 16)
  {
    HighIsReachable();
    LargeRequest(e);
    assert OsGives(Start(HIGH), 16, AllocSize(8192, e), 16);
    Sixteen(e);
  }

  lemma Sixteen(e: nat)
    requires e >= 5
    ensures 16 % Pow2(e) == 16
  {
    assert Pow2(5) == 32;
    PowGrows(5, e);
    DivModUnique(16, Pow2(e), 0, 16);
  }

  lemma LargeRequest(e: nat)
    requires 5 <= e <= 63
    ensures Request(8192, e) && 8192 <= AllocSize(8192, e) <= BASE - 16
  {
    PowGrows(e, 63);
    HalfIsPow2();
    AlignUpExact(8192, e);
  }

  /** Every address allocate returns is aligned to 2^e exactly when 2^e is at most 16. */
  lemma AlignedIff(e: nat)
    requires e <= 63
    ensures (forall w, bytes, os :: AlignedCall(w, bytes, e, os)) <==> e <= 4
  {
    if e <= 4 {
      forall w, bytes, os
        ensures AlignedCall(w, bytes, e, os)
      {
        SixteenIsAligned(w, bytes, e, os);
      }
    } else {
      LargeIsNot(e);
    }
  }

  lemma AddMultiple(x: nat, off: nat, a: nat)
    requires a > 0 && off % a == 0
    ensures (x + off) % a == x % a
  {
    assert x + off == a * (x / a + off / a) + x % a;
    DivModUnique(x + off, a, x / a + off / a, x % a);
  }

  /** What allocate_from_block returns is aligned as requested exactly when the block it lies in is. */
  lemma BumpAligned(b: Bump, size: nat, e: nat, os: nat)
    requires b.offset <= BLOCK_SIZE && Align(e) <= 256
    ensures var (b', addr) := BumpAlloc(b, size, e, os);
            addr % Align(e) == 0 <==> b'.ptr % Align(e) == 0
  {
    AlignIs(e);
    AlignUpExact(b.offset, AlignLog(e));
    AddMultiple(b.ptr, AlignUp(b.offset, Align(e)), Align(e));
  }

  /** On an empty stack and ring the small path bumps. */
  lemma SmallBumps(p: Pool, bytes: nat, e: nat, os: nat, c: nat)
    requires Shape(p) && c < CLASSES && HomeOf(bytes, e) == Small(c)
    requires p.classes[c].takeCache == [] && Drain(p.classes[c]).central == []
    ensures var (pool, addr) := Allocated(p, bytes, e, os);
            (pool.bump, addr) == BumpAlloc(p.bump, ClassSize(c), e, os)
  {
  }

  /** A small object cut from a block is aligned as requested exactly when that block is; so up to 64 it always is. */
  lemma FreshSmallAligned(w: World, bytes: nat, e: nat, os: nat, c: nat)
    requires Shape(w.pool) && Reachable(w) && Enabled(w, Alloc(bytes, e, os)) && HomeOf(bytes, e) == Small(c)
    requires c < CLASSES && Drain(w.pool.classes[c]).central == []
    ensures var (pool, addr) := Allocated(w.pool, bytes, e, os);
            && (addr % Align(e) == 0 <==> pool.bump.ptr % Align(e) == 0)
            && (e <= 6 ==> addr % Align(e) == 0)
  {
    ReachableInv(w);
    assert ClassBooks(w.pool.classes[c], w.slots, c);
    SmallAlign(bytes, e);
    SmallBumps(w.pool, bytes, e, os, c);
    BumpAligned(w.pool.bump, ClassSize(c), e, os);
    BumpKept(w, bytes, e, os, c);
    if e <= 6 {
      AlignIs(e);
      assert Pow2(6) == 64;
      PowDivides(Allocated(w.pool, bytes, e, os).0.bump.ptr, AlignLog(e), 6);
    }
  }
}
