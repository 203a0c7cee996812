/** Runs of the pool that show where its small objects come to lie: not at multiples of their class size, and, once
    recycled, not at multiples of the requested alignment either. */
module PoolMisalignment {
  import opened Words
  import opened SizeClass
  import opened Rounding
  import opened MemoryPool
  import opened PoolPartition
  import opened PoolAlignment

  lemma ReachableNext(w: World, act: Action)
    requires Shape(w.pool) && Reachable(w)
    ensures Reachable(Step(w, act))
  {
    var initial: seq<nat>, run: seq<Action> :| Reaches(initial, run, w);
    var run' := run + [act];
    assert run'[..|run|] == run;
    assert Reaches(initial, run', Step(w, act));
  }

  /** Objects of class c take this much of a block when no alignment above 16 is asked for. */
  function Padded(c: nat): nat { if c == 0 then 16 else ClassSize(c) }

  lemma ClassMultiple(c: nat)
    requires 1 <= c < CLASSES
    ensures ClassSize(c) % 16 == 0
  {
    assert Pow2(4) == 16;
    PowSum(4, c - 1);
    DivModUnique(ClassSize(c), 16, Pow2(c - 1), 0);
  }

  /** Rounding to 16, for an alignment of at most that. */
  lemma Rounded(x: nat, e: nat)
    requires e <= 4 && x <= BLOCK_SIZE
    ensures x <= AlignUp(x, Align(e)) < x + 16 && AlignUp(x, Align(e)) % 16 == 0
  {
    assert Pow2(4) == 16;
    AlignIs(e);
    AlignUpExact(x, AlignLog(e));
  }

  lemma PaddedIs(c: nat, e: nat)
    requires c < CLASSES && e <= 4
    ensures AlignUp(ClassSize(c), Align(e)) == Padded(c) <= SMALL_MAX
  {
    ClassSizes(c);
    Rounded(ClassSize(c), e);
    if c == 0 {
      assert Pow2(3) == 8;
    } else {
      ClassMultiple(c);
    }
  }

  predicate Bare(cl: Class) { cl.central == [] && cl.ring == [] && cl.takeCache == [] }

  lemma BareDrains(cl: Class)
    requires Bare(cl)
    ensures Drain(cl) == cl
  {
  }

  /** The current block has room for any small object, at a multiple of 16. */
  predicate Roomy(b: Bump) { b.offset % 16 == 0 && b.offset + SMALL_MAX <= BLOCK_SIZE }

  lemma NextPlace(b: Bump, c: nat, e: nat, os: nat)
    requires c < CLASSES && e <= 4 && Roomy(b)
    ensures BumpAlloc(b, ClassSize(c), e, os) == (b.(offset := b.offset + Padded(c)), b.ptr + b.offset)
  {
    PaddedIs(c, e);
    Rounded(b.offset, e);
  }

  /** A request of the class size with an alignment of at most 16. */
  lemma PlainRequest(c: nat, e: nat)
    requires c < CLASSES && e <= 4
    ensures Request(ClassSize(c), e) && HomeOf(ClassSize(c), e) == Small(c) &&
            AllocSize(ClassSize(c), e) == ClassSize(c)
    ensures ClassSize(c) <= SMALL_MAX && FreshLen(ClassSize(c), e) == ClassSize(c)
  {
    ClassSizes(c);
    ClassIndex(c);
    assert Pow2(4) == 16;
    PowGrows(e, 4);
  }

  lemma FreshPool(p: Pool, c: nat, e: nat, os: nat, bump: Bump, addr: nat)
    requires Shape(p) && c < CLASSES && e <= 4 && Bare(p.classes[c])
    requires BumpAlloc(p.bump, ClassSize(c), e, os) == (bump, addr)
    ensures Allocated(p, ClassSize(c), e, os) == (p.(bump := bump), addr)
  {
    PlainRequest(c, e);
    BareDrains(p.classes[c]);
    assert p.classes[c := p.classes[c]] == p.classes;
  }

  lemma NewAddress(w: World, c: nat, e: nat, os: nat)
    requires Shape(w.pool) && Reachable(w) && c < CLASSES && e <= 4 && OsGives(w, os, BLOCK_SIZE, 64)
    ensures BumpAlloc(w.pool.bump, ClassSize(c), e, os).1 !in w.slots
  {
    ReachableInv(w);
    PlainRequest(c, e);
    BumpKept(w, ClassSize(c), e, os, c);
  }

  /** The object a plain allocation of class c hands out. */
  function Plain(c: nat, e: nat): Slot { Slot(ClassSize(c), Small(c), InUse(ClassSize(c), e)) }

  /** Handing out an address that is new. */
  lemma HandsOut(w: World, c: nat, e: nat, os: nat, pool: Pool, addr: nat)
    requires Shape(w.pool) && c < CLASSES && e <= 4 && OsGives(w, os, BLOCK_SIZE, 64)
    requires Allocated(w.pool, ClassSize(c), e, os) == (pool, addr) && addr !in w.slots
    ensures Step(w, Alloc(ClassSize(c), e, os)) == World(pool, w.slots[addr := Plain(c, e)])
  {
    PlainRequest(c, e);
  }

  /** An allocation that finds nothing to recycle takes the next place of the block. */
  lemma AllocFresh(w: World, c: nat, e: nat, os: nat)
    requires Shape(w.pool) && Reachable(w) && c < CLASSES && e <= 4 && Bare(w.pool.classes[c])
    requires OsGives(w, os, BLOCK_SIZE, 64) && Roomy(w.pool.bump)
    ensures var b := w.pool.bump;
            Step(w, Alloc(ClassSize(c), e, os))
            == World(w.pool.(bump := b.(offset := b.offset + Padded(c))), w.slots[b.ptr + b.offset := Plain(c, e)])
  {
    var b := w.pool.bump;
    var bump, addr := b.(offset := b.offset + Padded(c)), b.ptr + b.offset;
    NextPlace(b, c, e, os);
    NewAddress(w, c, e, os);
    FreshPool(w.pool, c, e, os, bump, addr);
    HandsOut(w, c, e, os, w.pool.(bump := bump), addr);
  }

  // ---- Class size ------------------------------------------------------------------------------------------

  /** A live object of class c lies at a multiple of the class size. */
  ghost predicate ClassAligned(w: World, a: nat, c: nat) {
    Reachable(w) && Live(w, a) && w.slots[a].home == Small(c) ==> a % ClassSize(c) == 0
  }

  lemma SmallClassesAligned(w: World, a: nat, c: nat)
    requires c <= 1
    ensures ClassAligned(w, a, c)
  {
    if Reachable(w) && Live(w, a) {
      ReachableInv(w);
      assert Sits(w.pool.bump, a, w.slots[a]);
      assert Pow2(4) == 16;
      PowDivides(a, c + 3, 4);
    }
  }

  /** BASE is a multiple of every class size. */
  lemma BaseIsMultiple(c: nat)
    requires 2 <= c < CLASSES
    ensures BASE % ClassSize(c) == 0 && ClassSize(c) > 16
  {
    assert Pow2(5) == 32;
    PowGrows(5, c + 3);
    assert BASE % Pow2(8) == 0 by {
      SmallPowers();
    }
    PowDivides(BASE, c + 3, 8);
  }

  lemma OffBySixteen(c: nat)
    requires 2 <= c < CLASSES
    ensures (BASE + 16) % ClassSize(c) == 16
  {
    var s := ClassSize(c);
    BaseIsMultiple(c);
    assert BASE + 16 == s * (BASE / s) + 16;
    DivModUnique(BASE + 16, s, BASE / s, 16);
  }

  /** A pool that has handed out one object of 8 bytes. */
  lemma OneSmall(e: nat) returns (w: World)
    requires e <= 4
    ensures Shape(w.pool) && Reachable(w) && w.pool.bump == Bump(HIGH, 0, BASE, 16)
    ensures forall c :: 0 <= c < CLASSES ==> w.pool.classes[c] == Class([], [], [], [])
  {
    var w0 := Start(HIGH);
    HighIsReachable();
    var os := OsHasRoom(w0);
    AllocFresh(w0, 0, e, os);
    ReachableNext(w0, Alloc(ClassSize(0), e, os));
    w := Step(w0, Alloc(ClassSize(0), e, os));
  }

  /** The next object, of class c, lies 16 bytes into the block. */
  lemma SecondObject(c: nat, e: nat) returns (w: World)
    requires c < CLASSES && e <= 4
    ensures Reachable(w) && Live(w, BASE + 16) && w.slots[BASE + 16].home == Small(c)
  {
    var w1 := OneSmall(e);
    var os := OsHasRoom(w1);
    AllocFresh(w1, c, e, os);
    ReachableNext(w1, Alloc(ClassSize(c), e, os));
    w := Step(w1, Alloc(ClassSize(c), e, os));
  }

  lemma LargerClassesAreNot(c: nat) returns (w: World)
    requires 2 <= c < CLASSES
    ensures !ClassAligned(w, BASE + 16, c)
  {
    w := SecondObject(c, 0);
    OffBySixteen(c);
  }

  /** Live objects of a class lie at multiples of the class size in all reachable states exactly for the classes of 8
      and 16 bytes. */
  lemma ClassAlignedIff(c: nat)
    requires c < CLASSES
    ensures (forall w, a :: ClassAligned(w, a, c)) <==> c <= 1
  {
    if c <= 1 {
      forall w, a
        ensures ClassAligned(w, a, c)
      {
        SmallClassesAligned(w, a, c);
      }
    } else {
      var w := LargerClassesAreNot(c);
    }
  }

  // ---- Recycled objects ------------------------------------------------------------------------------------

  /** The offset of the j-th object of class c behind one of 8 bytes. */
  function Offset(c: nat, j: nat): nat { if j == 0 then 16 else Offset(c, j - 1) + ClassSize(c) }

  function Place(c: nat, j: nat): nat { BASE + Offset(c, j) }

  lemma {:induction false} OffsetIs(c: nat, j: nat)
    requires 2 <= c < CLASSES
    ensures Offset(c, j) % 16 == 0 && Offset(c, j) <= 16 + SMALL_MAX * j
  {
    ClassSizes(c);
    ClassMultiple(c);
    if j > 0 {
      OffsetIs(c, j - 1);
    }
  }

  lemma {:induction false} PlaceIs(c: nat, j: nat)
    requires 2 <= c < CLASSES
    ensures Place(c, j) % ClassSize(c) == 16
  {
    if j == 0 {
      OffBySixteen(c);
    } else {
      PlaceIs(c, j - 1);
      NextMultiple(Place(c, j - 1), ClassSize(c));
    }
  }

  lemma NextMultiple(x: nat, s: nat)
    requires s > 0
    ensures (x + s) % s == x % s
  {
    assert x + s == s * (x / s + 1) + x % s;
    DivModUnique(x + s, s, x / s + 1, x % s);
  }

  /** k objects of class c have been allocated behind one of 8 bytes, and the first f of them freed. */
  ghost predicate Stage(w: World, c: nat, e: nat, k: nat, f: nat) {
    && Shape(w.pool) && Reachable(w) && c < CLASSES
    && w.pool.bump.ptr == BASE && w.pool.bump.offset == Offset(c, k)
    && Bare(w.pool.classes[c]) && |w.pool.classes[c].giveCache| == f
    && forall j :: f <= j < k ==> Waits(w, c, e, j)
  }

  predicate Waits(w: World, c: nat, e: nat, j: nat) {
    Place(c, j) in w.slots && w.slots[Place(c, j)] == Plain(c, e)
  }

  lemma {:induction false} PlacesDiffer(c: nat, i: nat, j: nat)
    requires i < j
    ensures Place(c, i) < Place(c, j)
  {
    if i < j - 1 {
      PlacesDiffer(c, i, j - 1);
    }
  }

  lemma {:induction false} StockUp(c: nat, e: nat, k: nat) returns (w: World)
    requires 2 <= c < CLASSES && e <= 4 && k <= 66
    ensures Stage(w, c, e, k, 0)
  {
    if k == 0 {
      w := OneSmall(e);
    } else {
      var w0 := StockUp(c, e, k - 1);
      w := OneMoreStocked(w0, c, e, k - 1);
    }
  }

  lemma OneMoreStocked(w: World, c: nat, e: nat, k: nat) returns (w': World)
    requires 2 <= c < CLASSES && e <= 4 && k < 66 && Stage(w, c, e, k, 0)
    ensures Stage(w', c, e, k + 1, 0)
  {
    var os := OsHasRoom(w);
    StageIsRoomy(w, c, e, k);
    AllocFresh(w, c, e, os);
    ReachableNext(w, Alloc(ClassSize(c), e, os));
    w' := Step(w, Alloc(ClassSize(c), e, os));
    NextStage(w, w', c, e, k);
  }

  lemma StageIsRoomy(w: World, c: nat, e: nat, k: nat)
    requires 2 <= c < CLASSES && k < 66 && Stage(w, c, e, k, 0)
    ensures Roomy(w.pool.bump)
  {
    OffsetIs(c, k);
  }

  lemma NextStage(w: World, w': World, c: nat, e: nat, k: nat)
    requires 2 <= c < CLASSES && Stage(w, c, e, k, 0) && Reachable(w')
    requires w'.pool == w.pool.(bump := w.pool.bump.(offset := w.pool.bump.offset + Padded(c)))
    requires w'.slots == w.slots[w.pool.bump.ptr + w.pool.bump.offset := Plain(c, e)]
    ensures Stage(w', c, e, k + 1, 0)
  {
    OneMoreWaits(w, w', c, e, k);
  }

  lemma OneMoreWaits(w: World, w': World, c: nat, e: nat, k: nat)
    requires forall j :: 0 <= j < k ==> Waits(w, c, e, j)
    requires w'.slots == w.slots[Place(c, k) := Plain(c, e)]
    ensures forall j :: 0 <= j < k + 1 ==> Waits(w', c, e, j)
  {
    forall j | 0 <= j < k + 1
      ensures Waits(w', c, e, j)
    {
      if j < k {
        assert Waits(w, c, e, j);
        PlacesDiffer(c, j, k);
      }
    }
  }

  /** Freeing the f-th object puts it into the cache, or into the ring once 65 are cached. */
  lemma FreeNext(w: World, c: nat, e: nat, k: nat, f: nat)
    requires Stage(w, c, e, k, f) && e <= 4 && f < k
    ensures var w' := Step(w, Free(Place(c, f)));
            && Shape(w'.pool) && Reachable(w') && w'.pool.bump == w.pool.bump
            && w'.pool.classes[c] == PutBack(w.pool.classes[c], Place(c, f))
            && w'.slots == w.slots[Place(c, f) := w.slots[Place(c, f)].(use := Parked(w.pool.classes[c]))]
  {
    assert Waits(w, c, e, f);
    ReachableNext(w, Free(Place(c, f)));
    PlainRequest(c, e);
  }

  lemma {:induction false} FreeFirst(c: nat, e: nat, f: nat) returns (w: World)
    requires 2 <= c < CLASSES && e <= 4 && f <= 65
    ensures Stage(w, c, e, 66, f)
  {
    if f == 0 {
      w := StockUp(c, e, 66);
    } else {
      var w0 := FreeFirst(c, e, f - 1);
      FreeNext(w0, c, e, 66, f - 1);
      w := Step(w0, Free(Place(c, f - 1)));
      forall j | f <= j < 66
        ensures Waits(w, c, e, j)
      {
        assert Waits(w0, c, e, j);
        PlacesDiffer(c, f - 1, j);
      }
    }
  }

  /** A call on the small path. */
  ghost predicate SmallAligned(w: World, bytes: nat, e: nat, os: nat) {
    HomeOf(bytes, e).Small? ==> AlignedCall(w, bytes, e, os)
  }

  /** What it takes for a call to return a misaligned address. */
  lemma Misplaced(w: World, bytes: nat, e: nat, os: nat, addr: nat, align: nat)
    requires Shape(w.pool) && Reachable(w) && Enabled(w, Alloc(bytes, e, os))
    requires Allocated(w.pool, bytes, e, os).1 == addr && align == Pow2(e) && addr % align != 0
    ensures !AlignedCall(w, bytes, e, os)
  {
  }

  /** The 66th object freed goes to the ring. */
  lemma InRing(c: nat) returns (w: World, addr: nat)
    requires 2 <= c < CLASSES
    ensures Shape(w.pool) && Reachable(w)
    ensures w.pool.classes[c].takeCache == [] && w.pool.classes[c].central == []
    ensures w.pool.classes[c].ring == [addr] && addr % ClassSize(c) == 16
  {
    var w0 := FreeFirst(c, 0, 65);
    FreeNext(w0, c, 0, 66, 65);
    addr := Place(c, 65);
    w := Step(w0, Free(addr));
    PlaceIs(c, 65);
  }

  /** ... and comes back for a request aligned to its size. */
  lemma Recycled(c: nat) returns (w: World, os: nat, addr: nat)
    requires 2 <= c < CLASSES
    ensures Shape(w.pool) && Reachable(w) && Enabled(w, Alloc(ClassSize(c), c + 3, os))
    ensures Allocated(w.pool, ClassSize(c), c + 3, os).1 == addr && addr % ClassSize(c) == 16
    ensures HomeOf(ClassSize(c), c + 3).Small?
  {
    w, addr := InRing(c);
    os := OsHasRoom(w);
    AlignedRequest(c);
    TakesRing(w.pool, c, addr, os);
  }

  lemma RecycledIsNot(c: nat) returns (w: World, os: nat)
    requires 2 <= c < CLASSES
    ensures !SmallAligned(w, ClassSize(c), c + 3, os)
  {
    var addr;
    w, os, addr := Recycled(c);
    Misplaced(w, ClassSize(c), c + 3, os, addr, ClassSize(c));
  }

  /** A request of the class size, aligned to it. */
  lemma AlignedRequest(c: nat)
    requires 2 <= c < CLASSES
    ensures var s, e := ClassSize(c), c + 3;
            Request(s, e) && AllocSize(s, e) == s <= SMALL_MAX && HomeOf(s, e) == Small(c)
  {
    var s, e := ClassSize(c), c + 3;
    ClassSizes(c);
    ClassIndex(c);
    assert Pow2(5) == 32;
    PowGrows(5, e);
    AlignUpExact(s, e);
    DivModUnique(s, s, 1, 0);
    BetweenMultiples(AlignUp(s, s), s);
  }

  lemma BetweenMultiples(x: nat, s: nat)
    requires s > 0 && s <= x < 2 * s && x % s == 0
    ensures x == s
  {
    DivModUnique(x, s, 1, x - s);
  }

  lemma TakesRing(p: Pool, c: nat, addr: nat, os: nat)
    requires Shape(p) && 2 <= c < CLASSES
    requires p.classes[c].takeCache == [] && p.classes[c].central == [] && p.classes[c].ring == [addr]
    ensures Allocated(p, ClassSize(c), c + 3, os).1 == addr
  {
    AlignedRequest(c);
    var cl := p.classes[c];
    assert cl.ring[..1] == [addr] && Reverse([addr]) == [addr];
    assert Drain(cl).central == [addr];
  }

  /** Every small address is aligned to 2^e in all reachable states exactly up to 16 (and, there being no small
      requests with an alignment above 256, beyond that). */
  lemma SmallAlignedIff(e: nat)
    requires e <= 63
    ensures (forall w, bytes, os :: SmallAligned(w, bytes, e, os)) <==> e <= 4 || e > 8
  {
    if e <= 4 {
      forall w, bytes, os
        ensures SmallAligned(w, bytes, e, os)
      {
        SixteenIsAligned(w, bytes, e, os);
      }
    } else if e > 8 {
      forall w, bytes, os
        ensures SmallAligned(w, bytes, e, os)
      {
        NoSuchRequest(w, bytes, e, os);
      }
    } else {
      var w, os := RecycledIsNot(e - 3);
    }
  }

  lemma NoSuchRequest(w: World, bytes: nat, e: nat, os: nat)
    requires 8 < e <= 63
    ensures HomeOf(bytes, e).Small? ==> !Enabled(w, Alloc(bytes, e, os))
  {
    if HomeOf(bytes, e).Small? && Enabled(w, Alloc(bytes, e, os)) {
      SmallAlign(bytes, e);
      SmallPowers();
      PowGrows(9, e);
    }
  }

  // ---- Fresh objects ---------------------------------------------------------------------------------------

  /** A call on the small path that finds nothing to recycle. */
  ghost predicate FreshAligned(w: World, bytes: nat, e: nat, os: nat) {
    Shape(w.pool) && HomeOf(bytes, e).Small? && HomeOf(bytes, e).c < CLASSES &&
    Drain(w.pool.classes[HomeOf(bytes, e).c]).central == [] ==>
      AlignedCall(w, bytes, e, os)
  }

  /** Blocks aligned to 64 and to no more. */
  const ODD: seq<nat> := [BASE + 64]

  lemma OddIsReachable()
    ensures Reachable(Start(ODD))
  {
    var w := Start(ODD);
    assert Exec(w, []) == w;
    assert GoodBlocks(ODD);
    assert Reaches(ODD, [], w);
  }

  lemma OffBySixtyFour(e: nat)
    requires 7 <= e <= 8
    ensures (BASE + 64) % Pow2(e) == 64
  {
    SmallPowers();
    assert Pow2(7) == 128;
  }

  lemma OddIsNot(e: nat) returns (os: nat)
    requires 7 <= e <= 8
    ensures !FreshAligned(Start(ODD), ClassSize(e - 3), e, os)
  {
    var w, c := Start(ODD), e - 3;
    OddIsReachable();
    os := OsHasRoom(w);
    AlignedRequest(c);
    BareDrains(w.pool.classes[c]);
    OddPlace(c, os);
    OffBySixtyFour(e);
    Misplaced(w, ClassSize(c), e, os, BASE + 64, Pow2(e));
  }

  lemma OddPlace(c: nat, os: nat)
    requires 2 <= c < CLASSES
    ensures Allocated(Start(ODD).pool, ClassSize(c), c + 3, os).1 == BASE + 64
  {
    var p := Start(ODD).pool;
    AlignedRequest(c);
    BareDrains(p.classes[c]);
    SmallBumps(p, ClassSize(c), c + 3, os, c);
    AlignedRequestPlace(p.bump, c + 3, os);
  }

  /** The first object of a block lies at its start. */
  lemma AlignedRequestPlace(b: Bump, e: nat, os: nat)
    requires 5 <= e <= 8 && b.offset == 0
    ensures BumpAlloc(b, Pow2(e), e, os).1 == b.ptr
  {
    AlignedRequest(e - 3);
    AlignIs(e);
    AlignUpExact(0, e);
    SmallPowers();
    PowGrows(e, 8);
    ZeroRounds(e);
    AlignUpExact(Pow2(e), e);
  }

  lemma ZeroRounds(e: nat)
    requires e <= 63
    ensures AlignUp(0, Pow2(e)) == 0
  {
    PowGrows(e, 63);
    HalfIsPow2();
    AlignUpExact(0, e);
    if AlignUp(0, Pow2(e)) != 0 {
      MultipleIsLarge(AlignUp(0, Pow2(e)), Pow2(e));
    }
  }

  /** Every small address that is cut from a block is aligned to 2^e in all reachable states exactly up to 64 (and,
      vacuously, above 256). */
  lemma FreshAlignedIff(e: nat)
    requires e <= 63
    ensures (forall w, bytes, os :: FreshAligned(w, bytes, e, os)) <==> e <= 6 || e > 8
  {
    if e <= 6 {
      forall w, bytes, os
        ensures FreshAligned(w, bytes, e, os)
      {
        FreshUpTo64(w, bytes, e, os);
      }
    } else if e > 8 {
      forall w, bytes, os
        ensures FreshAligned(w, bytes, e, os)
      {
        NoSuchRequest(w, bytes, e, os);
      }
    } else {
      var os := OddIsNot(e);
    }
  }

  lemma FreshUpTo64(w: World, bytes: nat, e: nat, os: nat)
    requires e <= 6
    ensures FreshAligned(w, bytes, e, os)
  {
    if e <= 4 {
      SixteenIsAligned(w, bytes, e, os);
    } else if Shape(w.pool) && Reachable(w) && Enabled(w, Alloc(bytes, e, os)) && HomeOf(bytes, e).Small? &&
              HomeOf(bytes, e).c < CLASSES && Drain(w.pool.classes[HomeOf(bytes, e).c]).central == [] {
      FreshSmallAligned(w, bytes, e, os, HomeOf(bytes, e).c);
      assert Pow2(5) == 32;
      PowGrows(5, e);
    }
  }
}
