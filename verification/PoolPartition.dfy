/** Every run of allocations and matching deallocations on the pool of MemoryPool: who owns which piece of memory. */
module PoolPartition {
  import opened Words
  import opened SizeClass
  import opened Rounding
  import opened MemoryPool
  import L = CentralFreeList

  /** Where an object's memory came from. */
  datatype Home = Small(c: nat) | Medium | Large

  /** In a client's hands (with the request that got it), waiting in the pool, or dropped by a full ring. */
  datatype Use = InUse(bytes: nat, e: nat) | Idle | Dropped

  datatype Slot = Slot(len: nat, home: Home, use: Use)

  /** `slots` is history: every piece of memory ever handed out and not yet back with the system, by address. */
  datatype World = World(pool: Pool, slots: map<nat, Slot>)

  /** `os` is what the system allocator returns if it is asked. */
  datatype Action = Alloc(bytes: nat, e: nat, os: nat) | Free(addr: nat) | Warmup(os: nat)

  function HomeOf(bytes: nat, e: nat): Home {
    var size := AllocSize(bytes, e);
    if size <= SMALL_MAX then IndexIsLeastFit(size); Small(SizeClassIndex(size))
    else if size <= MEDIUM_MAX then Medium else Large
  }

  predicate Apart(a: nat, la: nat, b: nat, lb: nat) { a + la <= b || b + lb <= a }

  /** The system allocator returns aligned memory that overlaps nothing it has given out and not got back. */
  predicate OsGives(w: World, os: nat, len: nat, align: nat) {
    && align > 0 && os % align == 0
    && (forall j :: 0 <= j < |w.pool.bump.blocks| ==> Apart(os, len, w.pool.bump.blocks[j], BLOCK_SIZE))
    && (forall a :: a in w.slots && !w.slots[a].home.Small? ==> Apart(os, len, a, w.slots[a].len))
  }

  predicate Enabled(w: World, a: Action) {
    match a
    case Alloc(bytes, e, os) =>
      Request(bytes, e) &&
      if AllocSize(bytes, e) <= SMALL_MAX then OsGives(w, os, BLOCK_SIZE, 64)
      else OsGives(w, os, AllocSize(bytes, e), 16)
    case Free(addr) => addr in w.slots && w.slots[addr].use.InUse?
    case Warmup(os) => OsGives(w, os, BLOCK_SIZE, 64)
  }

  function FreshLen(bytes: nat, e: nat): nat {
    if HomeOf(bytes, e).Small? then ClassSize(HomeOf(bytes, e).c) else AllocSize(bytes, e)
  }

  function Hand(slots: map<nat, Slot>, addr: nat, bytes: nat, e: nat): map<nat, Slot> {
    slots[addr := Slot(if addr in slots then slots[addr].len else FreshLen(bytes, e),
                       HomeOf(bytes, e), InUse(bytes, e))]
  }

  /** What becomes of a freed small object. */
  function Parked(cl: Class): Use {
    if |cl.giveCache| > 64 && |cl.ring| >= RING_CAPACITY then Dropped else Idle
  }

  function Step(w: World, a: Action): (w': World)
    requires Shape(w.pool)
    ensures Shape(w'.pool)
  {
    if !Enabled(w, a) then w
    else match a
      case Alloc(bytes, e, os) =>
        var (pool, addr) := Allocated(w.pool, bytes, e, os);
        World(pool, Hand(w.slots, addr, bytes, e))
      case Free(addr) =>
        var slot := w.slots[addr];
        var pool := Deallocated(w.pool, addr, slot.use.bytes, slot.use.e);
        World(pool,
              match slot.home
              case Small(c) =>
                if c < CLASSES then w.slots[addr := slot.(use := Parked(w.pool.classes[c]))] else w.slots
              case Medium => w.slots[addr := slot.(use := Idle)]
              case Large => w.slots - {addr})
      case Warmup(os) => w.(pool := w.pool.(bump := w.pool.bump.(blocks := w.pool.bump.blocks + [os])))
  }

  function Exec(w: World, run: seq<Action>): (w': World)
    requires Shape(w.pool)
    ensures Shape(w'.pool)
  {
    if run == [] then w else Step(Exec(w, run[..|run| - 1]), run[|run| - 1])
  }

  predicate GoodBlocks(blocks: seq<nat>) {
    && (forall j :: 0 <= j < |blocks| ==> blocks[j] % 64 == 0)
    && (forall i, j :: 0 <= i < j < |blocks| ==> Apart(blocks[i], BLOCK_SIZE, blocks[j], BLOCK_SIZE))
  }

  // ---- Geometry: which pieces of memory there are ---------------------------------------------------------

  predicate BumpOk(b: Bump) {
    && b.idx < |b.blocks| && b.ptr == b.blocks[b.idx] && b.offset <= BLOCK_SIZE
    && GoodBlocks(b.blocks)
  }

  /** [a, a + len) lies in the bumped part of block j. */
  predicate InBlock(b: Bump, a: nat, len: nat, j: nat)
    requires BumpOk(b)
  {
    && j <= b.idx
    && b.blocks[j] <= a && a + len <= b.blocks[j] + BLOCK_SIZE
    && (j == b.idx ==> a + len <= b.ptr + b.offset)
  }

  ghost predicate Sits(b: Bump, a: nat, slot: Slot)
    requires BumpOk(b)
  {
    && slot.len > 0 && a % 16 == 0
    && match slot.home
      case Small(c) => c < CLASSES && slot.len == ClassSize(c) && exists j: nat :: InBlock(b, a, slot.len, j)
      case _ => forall j :: 0 <= j < |b.blocks| ==> Apart(a, slot.len, b.blocks[j], BLOCK_SIZE)
  }

  predicate Separate(slots: map<nat, Slot>) {
    forall a, b :: a in slots && b in slots && a != b ==> Apart(a, slots[a].len, b, slots[b].len)
  }

  ghost predicate Geometry(b: Bump, slots: map<nat, Slot>) {
    && BumpOk(b) && Separate(slots)
    && forall a :: a in slots ==> Sits(b, a, slots[a])
  }

  /** The power of two allocate_from_block aligns to. */
  function AlignLog(e: nat): nat { if e > 4 then e else 4 }

  lemma AlignIs(e: nat)
    ensures Pow2(AlignLog(e)) == Align(e)
  {
    assert Pow2(4) == 16;
    if e > 4 {
      PowGrows(5, e);
    } else {
      PowGrows(e, 4);
    }
  }

  /** A small request is aligned to at most 256. */
  lemma SmallAlign(bytes: nat, e: nat)
    requires Request(bytes, e) && AllocSize(bytes, e) <= SMALL_MAX
    ensures Align(e) <= 256
  {
    if Pow2(e) > 16 {
      AlignUpExact(bytes, e);
      MultipleIsLarge(AlignUp(bytes, Pow2(e)), Pow2(e));
    }
  }

  lemma MultipleIsLarge(x: nat, a: nat)
    requires a > 0 && x > 0 && x % a == 0
    ensures x >= a
  {
    if x < a {
      DivModUnique(x, a, 0, x);
    }
  }

  /** What the bump allocator's rounding amounts to inside a block. */
  lemma BumpRounding(x: nat, e: nat)
    requires x <= BLOCK_SIZE && Align(e) <= 256
    ensures x <= AlignUp(x, Align(e)) < x + 256 && AlignUp(x, Align(e)) % 16 == 0
  {
    AlignIs(e);
    AlignUpExact(x, AlignLog(e));
    MultipleOf16(AlignUp(x, Pow2(AlignLog(e))), AlignLog(e));
  }

  lemma MultipleOf16(x: nat, k: nat)
    requires k >= 4 && x % Pow2(k) == 0
    ensures x % 16 == 0
  {
    assert Pow2(4) == 16;
    PowDivides(x, 4, k);
  }

  lemma Aligned16(base: nat, off: nat)
    requires base % 64 == 0 && off % 16 == 0
    ensures (base + off) % 16 == 0
  {
  }

  /** Adding a slot that is apart from all others. */
  lemma AddSlot(b: Bump, slots: map<nat, Slot>, addr: nat, slot: Slot)
    requires Geometry(b, slots) && Sits(b, addr, slot)
    requires addr !in slots && forall a :: a in slots ==> Apart(addr, slot.len, a, slots[a].len)
    ensures Geometry(b, slots[addr := slot])
  {
  }

  /** Geometry does not depend on how slots are used. */
  lemma Retag(b: Bump, slots: map<nat, Slot>, addr: nat, use: Use)
    requires Geometry(b, slots) && addr in slots
    ensures Geometry(b, slots[addr := slots[addr].(use := use)])
  {
    var slots' := slots[addr := slots[addr].(use := use)];
    forall a | a in slots'
      ensures Sits(b, a, slots'[a])
    {
      assert Sits(b, a, slots[a]);
    }
  }

  lemma RemoveSlot(b: Bump, slots: map<nat, Slot>, addr: nat)
    requires Geometry(b, slots)
    ensures Geometry(b, slots - {addr})
  {
  }

  /** A later bump position keeps every slot where it was. */
  lemma BumpForward(b: Bump, b': Bump, slots: map<nat, Slot>)
    requires Geometry(b, slots) && BumpOk(b') && b.blocks <= b'.blocks
    requires b'.idx > b.idx || (b'.idx == b.idx && b'.offset >= b.offset)
    requires forall j, a :: |b.blocks| <= j < |b'.blocks| && a in slots && !slots[a].home.Small? ==>
               Apart(a, slots[a].len, b'.blocks[j], BLOCK_SIZE)
    ensures Geometry(b', slots)
  {
    forall a | a in slots
      ensures Sits(b', a, slots[a])
    {
      assert Sits(b, a, slots[a]);
      if slots[a].home.Small? {
        var j: nat :| InBlock(b, a, slots[a].len, j);
        assert InBlock(b', a, slots[a].len, j);
      }
    }
  }

  /** A stretch of the current block above the bump offset, or of a block not yet begun, is apart from every slot. */
  lemma UnbumpedApart(b: Bump, slots: map<nat, Slot>, j: nat, addr: nat, len: nat, a: nat)
    requires Geometry(b, slots) && a in slots
    requires b.idx <= j < |b.blocks| && b.blocks[j] <= addr && addr + len <= b.blocks[j] + BLOCK_SIZE
    requires j == b.idx ==> b.ptr + b.offset <= addr
    ensures Apart(addr, len, a, slots[a].len)
  {
    assert Sits(b, a, slots[a]);
    if slots[a].home.Small? {
      var i: nat :| InBlock(b, a, slots[a].len, i);
      if i < j {
        assert Apart(b.blocks[i], BLOCK_SIZE, b.blocks[j], BLOCK_SIZE);
      }
    } else {
      assert Apart(a, slots[a].len, b.blocks[j], BLOCK_SIZE);
    }
  }

  lemma NotASlot(slots: map<nat, Slot>, addr: nat, len: nat)
    requires len > 0 && forall a :: a in slots ==> slots[a].len > 0 && Apart(addr, len, a, slots[a].len)
    ensures addr !in slots
  {
  }

  /** The new object and the rest of the block after a bump that stays in the current block. */
  lemma BumpInPlace(b: Bump, slots: map<nat, Slot>, off: nat, sz: nat, slot: Slot)
    requires Geometry(b, slots) && slot.home.Small? && slot.home.c < CLASSES && slot.len == ClassSize(slot.home.c)
    requires b.offset <= off && off % 16 == 0 && slot.len <= sz && off + sz <= BLOCK_SIZE
    ensures b.ptr + off !in slots
    ensures Geometry(b.(offset := off + sz), slots[b.ptr + off := slot])
  {
    var addr, b' := b.ptr + off, b.(offset := off + sz);
    forall a | a in slots
      ensures slots[a].len > 0 && Apart(addr, slot.len, a, slots[a].len)
    {
      UnbumpedApart(b, slots, b.idx, addr, slot.len, a);
      assert Sits(b, a, slots[a]);
    }
    NotASlot(slots, addr, slot.len);
    BumpForward(b, b', slots);
    Aligned16(b.ptr, off);
    assert InBlock(b', addr, slot.len, b.idx);
    AddSlot(b', slots, addr, slot);
  }

  /** The first object of the next block. */
  lemma BumpNextBlock(b: Bump, slots: map<nat, Slot>, sz: nat, slot: Slot)
    requires Geometry(b, slots) && slot.home.Small? && slot.home.c < CLASSES && slot.len == ClassSize(slot.home.c)
    requires b.idx + 1 < |b.blocks| && slot.len <= sz <= BLOCK_SIZE
    ensures b.blocks[b.idx + 1] !in slots
    ensures Geometry(Bump(b.blocks, b.idx + 1, b.blocks[b.idx + 1], sz), slots[b.blocks[b.idx + 1] := slot])
  {
    var addr := b.blocks[b.idx + 1];
    var b' := Bump(b.blocks, b.idx + 1, addr, sz);
    forall a | a in slots
      ensures slots[a].len > 0 && Apart(addr, slot.len, a, slots[a].len)
    {
      UnbumpedApart(b, slots, b.idx + 1, addr, slot.len, a);
      assert Sits(b, a, slots[a]);
    }
    NotASlot(slots, addr, slot.len);
    BumpForward(b, b', slots);
    Aligned16(addr, 0);
    assert InBlock(b', addr, slot.len, b'.idx);
    AddSlot(b', slots, addr, slot);
  }

  /** One more block from the system. */
  lemma MoreBlocks(w: World, os: nat)
    requires Geometry(w.pool.bump, w.slots) && OsGives(w, os, BLOCK_SIZE, 64)
    ensures Geometry(w.pool.bump.(blocks := w.pool.bump.blocks + [os]), w.slots)
  {
    var b := w.pool.bump;
    BumpForward(b, b.(blocks := b.blocks + [os]), w.slots);
  }

  lemma ClassSizes(c: nat)
    requires c < CLASSES
    ensures 8 <= ClassSize(c) <= SMALL_MAX
  {
    SmallPowers();
    PowGrows(3, c + 3);
    PowGrows(c + 3, 8);
  }

  /** Wherever the bump allocator places a small object, no other slot is there, and none will be placed there later. */
  lemma BumpByKept(w: World, off: nat, sz: nat, os: nat, slot: Slot)
    requires Geometry(w.pool.bump, w.slots) && OsGives(w, os, BLOCK_SIZE, 64)
    requires slot.home.Small? && slot.home.c < CLASSES && slot.len == ClassSize(slot.home.c)
    requires w.pool.bump.offset <= off && off % 16 == 0 && slot.len <= sz <= BLOCK_SIZE
    ensures var (b', addr) := BumpBy(w.pool.bump, off, sz, os);
            addr !in w.slots && Geometry(b', w.slots[addr := slot])
  {
    var b := w.pool.bump;
    if off + sz <= BLOCK_SIZE {
      BumpInPlace(b, w.slots, off, sz, slot);
    } else if b.idx + 1 < |b.blocks| {
      BumpNextBlock(b, w.slots, sz, slot);
    } else {
      MoreBlocks(w, os);
      BumpNextBlock(b.(blocks := b.blocks + [os]), w.slots, sz, slot);
    }
  }

  /** allocate_from_block hands out memory that no other object has and that the pool will not hand out again. */
  lemma BumpKept(w: World, bytes: nat, e: nat, os: nat, c: nat)
    requires Geometry(w.pool.bump, w.slots) && Request(bytes, e) && OsGives(w, os, BLOCK_SIZE, 64)
    requires AllocSize(bytes, e) <= SMALL_MAX && c < CLASSES
    ensures var (b', addr) := BumpAlloc(w.pool.bump, ClassSize(c), e, os);
            addr !in w.slots && Geometry(b', w.slots[addr := Slot(ClassSize(c), Small(c), InUse(bytes, e))])
  {
    SmallAlign(bytes, e);
    ClassSizes(c);
    BumpRounding(w.pool.bump.offset, e);
    BumpRounding(ClassSize(c), e);
    BumpByKept(w, AlignUp(w.pool.bump.offset, Align(e)), AlignUp(ClassSize(c), Align(e)), os,
               Slot(ClassSize(c), Small(c), InUse(bytes, e)));
  }

  // ---- Books: which pieces the pool holds -----------------------------------------------------------------

  function HeldIn(cl: Class): multiset<nat> {
    multiset(cl.central) + multiset(cl.ring) + multiset(cl.takeCache) + multiset(cl.giveCache)
  }

  predicate IdleAt(slots: map<nat, Slot>, a: nat, home: Home) {
    a in slots && slots[a].home == home && slots[a].use.Idle?
  }

  function Once(b: bool): nat { if b then 1 else 0 }

  /** The containers of class c hold exactly the idle slots of that class, each once; the allocating cache is empty and
      the other has at most 65. */
  ghost predicate ClassBooks(cl: Class, slots: map<nat, Slot>, c: nat) {
    && cl.takeCache == [] && |cl.ring| <= RING_CAPACITY && |cl.giveCache| <= 65
    && forall a: nat :: HeldIn(cl)[a] == Once(IdleAt(slots, a, Small(c)))
  }

  function Addrs(m: seq<FreeNode>): (r: seq<nat>)
    ensures |r| == |m|
  {
    seq(|m|, i requires 0 <= i < |m| => m[i].addr)
  }

  /** The medium list holds exactly the idle medium slots, each once, under a size not above the true one. */
  ghost predicate MediumBooks(m: seq<FreeNode>, slots: map<nat, Slot>) {
    && (forall a: nat :: multiset(Addrs(m))[a] == Once(IdleAt(slots, a, Medium)))
    && forall i :: 0 <= i < |m| ==> m[i].addr in slots && m[i].size <= slots[m[i].addr].len
  }

  predicate UseOk(slot: Slot) {
    match slot.use
    case InUse(bytes, e) =>
      Request(bytes, e) && slot.home == HomeOf(bytes, e) && bytes <= AllocSize(bytes, e) <= slot.len
    case _ => !slot.home.Large?
  }

  ghost predicate Books(p: Pool, slots: map<nat, Slot>) {
    && Shape(p)
    && (forall c :: 0 <= c < CLASSES ==> ClassBooks(p.classes[c], slots, c))
    && MediumBooks(p.medium, slots)
    && forall a :: a in slots ==> UseOk(slots[a])
  }

  ghost predicate Inv(w: World) { Geometry(w.pool.bump, w.slots) && Books(w.pool, w.slots) }

  lemma {:induction false} ReverseMultiset(q: seq<nat>)
    ensures multiset(Reverse(q)) == multiset(q)
  {
    if q != [] {
      ReverseMultiset(q[1..]);
      assert q == [q[0]] + q[1..];
    }
  }

  /** Taking one address out of the containers and out of the idle slots, or putting one into both. */
  lemma HeldMoves(held: multiset<nat>, held': multiset<nat>, slots: map<nat, Slot>, addr: nat, slot: Slot, home: Home)
    requires forall a: nat :: held[a] == Once(IdleAt(slots, a, home))
    requires addr in slots && slots[addr].home == slot.home == home
    requires if slots[addr].use.Idle? == slot.use.Idle? then held' == held
             else if slot.use.Idle? then held' == held + multiset{addr}
             else held == held' + multiset{addr}
    ensures forall a: nat :: held'[a] == Once(IdleAt(slots[addr := slot], a, home))
  {
    forall a: nat
      ensures held'[a] == Once(IdleAt(slots[addr := slot], a, home))
    {
      assert held[a] == Once(IdleAt(slots, a, home));
    }
  }

  lemma DrainHeld(cl: Class)
    ensures HeldIn(Drain(cl)) == HeldIn(cl) && |Drain(cl).ring| <= |cl.ring|
  {
    var k := Min(16, |cl.ring|);
    ReverseMultiset(cl.ring[..k]);
    assert cl.ring == cl.ring[..k] + cl.ring[k..];
  }

  /** The containers of the other classes and the medium list do not notice a change to one small slot. */
  lemma OneClassChanged(p: Pool, slots: map<nat, Slot>, c: nat, cl: Class, addr: nat, slot: Slot)
    requires Books(p, slots) && c < CLASSES && slot.home == Small(c) && UseOk(slot)
    requires addr in slots ==> slots[addr].home == Small(c)
    requires ClassBooks(cl, slots[addr := slot], c)
    ensures Books(p.(classes := p.classes[c := cl]), slots[addr := slot])
  {
    var p', slots' := p.(classes := p.classes[c := cl]), slots[addr := slot];
    forall d | 0 <= d < CLASSES
      ensures ClassBooks(p'.classes[d], slots', d)
    {
      assert ClassBooks(p.classes[d], slots, d);
      if d != c {
        forall a: nat
          ensures IdleAt(slots', a, Small(d)) == IdleAt(slots, a, Small(d))
        {
        }
      }
    }
    MediumUnchanged(p.medium, slots, addr, slot);
  }

  lemma MediumUnchanged(m: seq<FreeNode>, slots: map<nat, Slot>, addr: nat, slot: Slot)
    requires MediumBooks(m, slots) && !slot.home.Medium? && (addr in slots ==> !slots[addr].home.Medium?)
    ensures MediumBooks(m, slots[addr := slot])
  {
    var slots' := slots[addr := slot];
    forall a: nat
      ensures IdleAt(slots', a, Medium) == IdleAt(slots, a, Medium)
    {
    }
    forall i | 0 <= i < |m|
      ensures m[i].addr in slots' && m[i].size <= slots'[m[i].addr].len
    {
      assert Addrs(m)[i] == m[i].addr;
      assert multiset(Addrs(m))[m[i].addr] >= 1;
      assert IdleAt(slots, m[i].addr, Medium);
    }
  }

  /** The small containers do not notice a change to one medium or large slot. */
  lemma ClassesUnchanged(p: Pool, slots: map<nat, Slot>, slots': map<nat, Slot>)
    requires Books(p, slots)
    requires forall a, c :: IdleAt(slots', a, Small(c)) == IdleAt(slots, a, Small(c))
    ensures forall c :: 0 <= c < CLASSES ==> ClassBooks(p.classes[c], slots', c)
  {
    forall c | 0 <= c < CLASSES
      ensures ClassBooks(p.classes[c], slots', c)
    {
      assert ClassBooks(p.classes[c], slots, c);
    }
  }

  // ---- Every step keeps both --------------------------------------------------------------------------

  /** Taking an idle slot of class c out of its containers. */
  lemma TakeSmall(p: Pool, slots: map<nat, Slot>, c: nat, bytes: nat, e: nat)
    requires Books(p, slots) && c < CLASSES && Request(bytes, e) && HomeOf(bytes, e) == Small(c)
    requires Drain(p.classes[c]).central != [] &&
             forall a :: a in slots ==> slots[a].home == Small(c) ==> slots[a].len == ClassSize(c)
    ensures var dr := Drain(p.classes[c]);
            var addr := dr.central[0];
            && IdleAt(slots, addr, Small(c))
            && Books(p.(classes := p.classes[c := dr.(central := dr.central[1..])]), Hand(slots, addr, bytes, e))
  {
    var cl := p.classes[c];
    var dr := Drain(cl);
    var addr := dr.central[0];
    var cl' := dr.(central := dr.central[1..]);
    assert ClassBooks(cl, slots, c);
    TopHeld(cl);
    assert HeldIn(cl)[addr] >= 1;
    var slot := Slot(slots[addr].len, Small(c), InUse(bytes, e));
    SmallUse(bytes, e, c);
    HeldMoves(HeldIn(cl), HeldIn(cl'), slots, addr, slot, Small(c));
    OneClassChanged(p, slots, c, cl', addr, slot);
  }

  lemma TopHeld(cl: Class)
    requires Drain(cl).central != []
    ensures var dr := Drain(cl);
            && HeldIn(cl) == HeldIn(dr.(central := dr.central[1..])) + multiset{dr.central[0]}
            && |dr.ring| <= |cl.ring|
  {
    var dr := Drain(cl);
    DrainHeld(cl);
    assert dr.central == [dr.central[0]] + dr.central[1..];
  }

  lemma SmallUse(bytes: nat, e: nat, c: nat)
    requires Request(bytes, e) && HomeOf(bytes, e) == Small(c)
    ensures c < CLASSES && UseOk(Slot(ClassSize(c), Small(c), InUse(bytes, e)))
  {
    IndexIsLeastFit(AllocSize(bytes, e));
    SizeCoversRequest(bytes, e);
  }

  lemma AllocSmallKept(w: World, bytes: nat, e: nat, os: nat)
    requires Inv(w) && Enabled(w, Alloc(bytes, e, os)) && HomeOf(bytes, e).Small?
    ensures Inv(Step(w, Alloc(bytes, e, os)))
  {
    var c, p := HomeOf(bytes, e).c, w.pool;
    SmallUse(bytes, e, c);
    var dr := Drain(p.classes[c]);
    assert ClassBooks(p.classes[c], w.slots, c);
    forall a | a in w.slots && w.slots[a].home == Small(c)
      ensures w.slots[a].len == ClassSize(c)
    {
      assert Sits(p.bump, a, w.slots[a]);
    }
    if dr.central != [] {
      TakeSmall(p, w.slots, c, bytes, e);
      Retag(p.bump, w.slots, dr.central[0], InUse(bytes, e));
    } else {
      BumpKept(w, bytes, e, os, c);
      var (b', addr) := BumpAlloc(p.bump, ClassSize(c), e, os);
      var slot := Slot(ClassSize(c), Small(c), InUse(bytes, e));
      DrainHeld(p.classes[c]);
      forall a: nat
        ensures HeldIn(dr)[a] == Once(IdleAt(w.slots[addr := slot], a, Small(c)))
      {
        assert HeldIn(p.classes[c])[a] == Once(IdleAt(w.slots, a, Small(c)));
      }
      OneClassChanged(p, w.slots, c, dr, addr, slot);
      BooksIgnoreBump(p.(classes := p.classes[c := dr]), b', w.slots[addr := slot]);
    }
  }

  lemma BooksIgnoreBump(p: Pool, b: Bump, slots: map<nat, Slot>)
    requires Books(p, slots)
    ensures Books(p.(bump := b), slots)
  {
    forall c | 0 <= c < CLASSES
      ensures ClassBooks(p.(bump := b).classes[c], slots, c)
    {
      assert ClassBooks(p.classes[c], slots, c);
    }
  }

  /** Memory fresh from the system for a medium or large object. */
  lemma AllocOsKept(w: World, bytes: nat, e: nat, os: nat)
    requires Inv(w) && Enabled(w, Alloc(bytes, e, os)) && !HomeOf(bytes, e).Small?
    ensures os !in w.slots && Inv(World(w.pool, Hand(w.slots, os, bytes, e)))
  {
    SizeCoversRequest(bytes, e);
    var slot := Slot(AllocSize(bytes, e), HomeOf(bytes, e), InUse(bytes, e));
    forall a | a in w.slots
      ensures w.slots[a].len > 0 && Apart(os, slot.len, a, w.slots[a].len)
    {
      assert Sits(w.pool.bump, a, w.slots[a]);
      if w.slots[a].home.Small? {
        var j: nat :| InBlock(w.pool.bump, a, w.slots[a].len, j);
        assert Apart(os, slot.len, w.pool.bump.blocks[j], BLOCK_SIZE);
      }
    }
    NotASlot(w.slots, os, slot.len);
    AddSlot(w.pool.bump, w.slots, os, slot);
    OsBooks(w, os, slot);
  }

  lemma OsBooks(w: World, os: nat, slot: Slot)
    requires Books(w.pool, w.slots) && os !in w.slots && slot.use.InUse? && UseOk(slot)
    ensures Books(w.pool, w.slots[os := slot])
  {
    var slots' := w.slots[os := slot];
    ClassesUnchanged(w.pool, w.slots, slots');
    forall i | 0 <= i < |w.pool.medium|
      ensures w.pool.medium[i].addr in slots' && w.pool.medium[i].size <= slots'[w.pool.medium[i].addr].len
    {
      assert w.pool.medium[i].addr in w.slots;
    }
    forall a: nat
      ensures IdleAt(slots', a, Medium) == IdleAt(w.slots, a, Medium)
    {
    }
  }

  lemma WithoutMultiset(m: seq<FreeNode>, f: nat)
    requires f < |m|
    ensures multiset(Addrs(m)) == multiset(Addrs(L.Without(m, f))) + multiset{m[f].addr}
  {
    var q := Addrs(m);
    assert q == q[..f] + [q[f]] + q[f + 1..];
    assert Addrs(L.Without(m, f)) == q[..f] + q[f + 1..];
  }

  lemma TakeMediumBooks(m: seq<FreeNode>, slots: map<nat, Slot>, f: nat, use: Use)
    requires MediumBooks(m, slots) && f < |m| && use.InUse?
    ensures IdleAt(slots, m[f].addr, Medium) && m[f].size <= slots[m[f].addr].len
    ensures MediumBooks(L.Without(m, f), slots[m[f].addr := slots[m[f].addr].(use := use)])
  {
    var addr, m' := m[f].addr, L.Without(m, f);
    WithoutMultiset(m, f);
    assert multiset(Addrs(m))[addr] >= 1;
    HeldMoves(multiset(Addrs(m)), multiset(Addrs(m')), slots, addr, slots[addr].(use := use), Medium);
    forall i | 0 <= i < |m'|
      ensures m'[i].addr in slots && m'[i].size <= slots[m'[i].addr].len
    {
      assert m'[i] == m[if i < f then i else i + 1];
    }
  }

  /** Reusing a medium chunk that is large enough. */
  lemma TakeMedium(w: World, bytes: nat, e: nat, f: nat)
    requires Inv(w) && Request(bytes, e) && HomeOf(bytes, e).Medium?
    requires f < |w.pool.medium| && w.pool.medium[f].size >= AllocSize(bytes, e)
    ensures IdleAt(w.slots, w.pool.medium[f].addr, Medium)
    ensures Inv(World(w.pool.(medium := L.Without(w.pool.medium, f)), Hand(w.slots, w.pool.medium[f].addr, bytes, e)))
  {
    var addr := w.pool.medium[f].addr;
    TakeMediumBooks(w.pool.medium, w.slots, f, InUse(bytes, e));
    SizeCoversRequest(bytes, e);
    var slots' := Hand(w.slots, addr, bytes, e);
    assert slots' == w.slots[addr := w.slots[addr].(use := InUse(bytes, e))];
    Retag(w.pool.bump, w.slots, addr, InUse(bytes, e));
    ClassesUnchanged(w.pool, w.slots, slots');
  }

  lemma AllocKept(w: World, bytes: nat, e: nat, os: nat)
    requires Inv(w) && Enabled(w, Alloc(bytes, e, os))
    ensures Inv(Step(w, Alloc(bytes, e, os)))
  {
    if HomeOf(bytes, e).Small? {
      AllocSmallKept(w, bytes, e, os);
    } else {
      var f := L.FirstFit(Sizes(w.pool.medium), AllocSize(bytes, e));
      if HomeOf(bytes, e).Medium? && f < |w.pool.medium| {
        TakeMedium(w, bytes, e, f);
      } else {
        AllocOsKept(w, bytes, e, os);
      }
    }
  }

  /** The freed object joins its class's containers, unless it is dropped. */
  lemma PutBackBooks(cl: Class, slots: map<nat, Slot>, c: nat, addr: nat)
    requires ClassBooks(cl, slots, c) && addr in slots && slots[addr].home == Small(c) && slots[addr].use.InUse?
    ensures ClassBooks(PutBack(cl, addr), slots[addr := slots[addr].(use := Parked(cl))], c)
  {
    assert HeldIn(PutBack(cl, addr)) == if Parked(cl).Idle? then HeldIn(cl) + multiset{addr} else HeldIn(cl);
    HeldMoves(HeldIn(cl), HeldIn(PutBack(cl, addr)), slots, addr, slots[addr].(use := Parked(cl)), Small(c));
  }

  lemma FreeSmallKept(w: World, addr: nat)
    requires Inv(w) && Enabled(w, Free(addr)) && w.slots[addr].home.Small?
    ensures Inv(Step(w, Free(addr)))
  {
    var slot := w.slots[addr];
    assert UseOk(slot);
    var c, p := slot.home.c, w.pool;
    SmallUse(slot.use.bytes, slot.use.e, c);
    var cl := p.classes[c];
    PutBackBooks(cl, w.slots, c, addr);
    OneClassChanged(p, w.slots, c, PutBack(cl, addr), addr, slot.(use := Parked(cl)));
    Retag(p.bump, w.slots, addr, Parked(cl));
  }

  lemma FreeMediumBooks(m: seq<FreeNode>, slots: map<nat, Slot>, addr: nat, size: nat)
    requires MediumBooks(m, slots) && addr in slots && slots[addr].home.Medium? && slots[addr].use.InUse?
    requires size <= slots[addr].len
    ensures MediumBooks([FreeNode(addr, size)] + m, slots[addr := slots[addr].(use := Idle)])
  {
    var m' := [FreeNode(addr, size)] + m;
    assert Addrs(m') == [addr] + Addrs(m);
    HeldMoves(multiset(Addrs(m)), multiset(Addrs(m')), slots, addr, slots[addr].(use := Idle), Medium);
  }

  lemma FreeMediumKept(w: World, addr: nat)
    requires Inv(w) && Enabled(w, Free(addr)) && w.slots[addr].home.Medium?
    ensures Inv(Step(w, Free(addr)))
  {
    var slot, w' := w.slots[addr], Step(w, Free(addr));
    assert UseOk(slot);
    FreeMediumBooks(w.pool.medium, w.slots, addr, AllocSize(slot.use.bytes, slot.use.e));
    Retag(w.pool.bump, w.slots, addr, Idle);
    ClassesUnchanged(w.pool, w.slots, w'.slots);
  }

  lemma FreeLargeKept(w: World, addr: nat)
    requires Inv(w) && Enabled(w, Free(addr)) && w.slots[addr].home.Large?
    ensures Inv(Step(w, Free(addr)))
  {
    var m, slots' := w.pool.medium, w.slots - {addr};
    assert UseOk(w.slots[addr]);
    RemoveSlot(w.pool.bump, w.slots, addr);
    ClassesUnchanged(w.pool, w.slots, slots');
    forall a: nat
      ensures IdleAt(slots', a, Medium) == IdleAt(w.slots, a, Medium)
    {
    }
    forall i | 0 <= i < |m|
      ensures m[i].addr in slots'
    {
      assert multiset(Addrs(m))[Addrs(m)[i]] >= 1;
      assert IdleAt(w.slots, m[i].addr, Medium);
    }
  }

  lemma StepKept(w: World, a: Action)
    requires Inv(w)
    ensures Inv(Step(w, a))
  {
    if Enabled(w, a) {
      match a
      case Alloc(bytes, e, os) => AllocKept(w, bytes, e, os);
      case Free(addr) =>
        if w.slots[addr].home.Small? {
          FreeSmallKept(w, addr);
        } else if w.slots[addr].home.Medium? {
          FreeMediumKept(w, addr);
        } else {
          FreeLargeKept(w, addr);
        }
      case Warmup(os) =>
        MoreBlocks(w, os);
        BooksIgnoreBump(w.pool, w.pool.bump.(blocks := w.pool.bump.blocks + [os]), w.slots);
    }
  }

  function Start(initial: seq<nat>): (w: World)
    requires initial != []
    ensures Shape(w.pool)
  {
    World(Fresh(initial), map[])
  }

  lemma {:induction false} RunKept(initial: seq<nat>, run: seq<Action>)
    requires initial != [] && GoodBlocks(initial)
    ensures Inv(Exec(Start(initial), run))
  {
    if run != [] {
      RunKept(initial, run[..|run| - 1]);
      StepKept(Exec(Start(initial), run[..|run| - 1]), run[|run| - 1]);
    }
  }

  /** A state some run reaches from a fresh pool. */
  ghost predicate Reachable(w: World) {
    exists initial: seq<nat>, run: seq<Action> :: Reaches(initial, run, w)
  }

  ghost predicate Reaches(initial: seq<nat>, run: seq<Action>, w: World) {
    initial != [] && GoodBlocks(initial) && w == Exec(Start(initial), run)
  }

  lemma ReachableInv(w: World)
    requires Reachable(w)
    ensures Inv(w)
  {
    var initial: seq<nat>, run: seq<Action> :| Reaches(initial, run, w);
    RunKept(initial, run);
  }

  // ---- Main results -----------------------------------------------------------------------------------

  predicate Live(w: World, a: nat) { a in w.slots && w.slots[a].use.InUse? }

  /** Live objects are at least as long as requested, 16-byte aligned, and apart from each other and from everything the
      pool caches, has dropped, or may still cut from its blocks. */
  lemma LiveObjectsApart(w: World, a: nat, b: nat, j: nat)
    requires Reachable(w) && Live(w, a)
    ensures w.slots[a].use.bytes <= w.slots[a].len && a % 16 == 0
    ensures b in w.slots && b != a ==> Apart(a, w.slots[a].len, b, w.slots[b].len)
    ensures var bump := w.pool.bump;
            && bump.idx < |bump.blocks| && bump.ptr == bump.blocks[bump.idx] && bump.offset <= BLOCK_SIZE
            && Apart(a, w.slots[a].len, bump.ptr + bump.offset, BLOCK_SIZE - bump.offset)
            && (bump.idx < j < |bump.blocks| ==> Apart(a, w.slots[a].len, bump.blocks[j], BLOCK_SIZE))
  {
    ReachableInv(w);
    var bump := w.pool.bump;
    assert Sits(bump, a, w.slots[a]) && UseOk(w.slots[a]);
    UnbumpedApart(bump, w.slots, bump.idx, bump.ptr + bump.offset, BLOCK_SIZE - bump.offset, a);
    if bump.idx < j < |bump.blocks| {
      UnbumpedApart(bump, w.slots, j, bump.blocks[j], BLOCK_SIZE, a);
    }
  }

  /** A live object of at most 256 rounded bytes lies inside one block; any other lies outside all blocks. */
  lemma SmallInsideOneBlock(w: World, a: nat)
    requires Reachable(w) && Live(w, a)
    ensures var slot, blocks := w.slots[a], w.pool.bump.blocks;
            if AllocSize(slot.use.bytes, slot.use.e) <= SMALL_MAX then
              exists j :: 0 <= j < |blocks| && blocks[j] <= a && a + slot.len <= blocks[j] + BLOCK_SIZE
            else forall j :: 0 <= j < |blocks| ==> Apart(a, slot.len, blocks[j], BLOCK_SIZE)
  {
    ReachableInv(w);
    assert Sits(w.pool.bump, a, w.slots[a]) && UseOk(w.slots[a]);
    if w.slots[a].home.Small? {
      var j: nat :| InBlock(w.pool.bump, a, w.slots[a].len, j);
    }
  }

  /** Ownership is a partition: the containers of a class, taken together, hold each idle object of that class exactly
      once and nothing else; in particular no live or dropped object, and none twice. */
  lemma HeldExactlyOnce(w: World, c: nat, a: nat)
    requires Reachable(w) && c < CLASSES
    ensures HeldIn(w.pool.classes[c])[a] == Once(IdleAt(w.slots, a, Small(c)))
    ensures multiset(Addrs(w.pool.medium))[a] == Once(IdleAt(w.slots, a, Medium))
    ensures Live(w, a) ==> HeldIn(w.pool.classes[c])[a] == 0 && multiset(Addrs(w.pool.medium))[a] == 0
  {
    ReachableInv(w);
    assert ClassBooks(w.pool.classes[c], w.slots, c);
  }

  /** What allocate returns is not live, and overlaps no live object in the bytes either has asked for. */
  lemma AllocationIsFresh(w: World, bytes: nat, e: nat, os: nat, a: nat)
    requires Reachable(w) && Enabled(w, Alloc(bytes, e, os))
    ensures var addr := Allocated(w.pool, bytes, e, os).1;
            !Live(w, addr) && (Live(w, a) ==> Apart(addr, bytes, a, w.slots[a].use.bytes))
  {
    ReachableInv(w);
    var addr := Allocated(w.pool, bytes, e, os).1;
    ReturnsIdle(w, bytes, e, os);
    if Live(w, a) {
      AllocKept(w, bytes, e, os);
      var slots' := Hand(w.slots, addr, bytes, e);
      assert UseOk(w.slots[a]) && UseOk(slots'[addr]) && a in slots';
      assert Apart(addr, slots'[addr].len, a, slots'[a].len);
    }
  }

  /** Only idle or new memory is handed out. */
  lemma ReturnsIdle(w: World, bytes: nat, e: nat, os: nat)
    requires Inv(w) && Enabled(w, Alloc(bytes, e, os))
    ensures var addr := Allocated(w.pool, bytes, e, os).1; addr in w.slots ==> w.slots[addr].use.Idle?
  {
    if HomeOf(bytes, e).Small? {
      var c := HomeOf(bytes, e).c;
      SmallUse(bytes, e, c);
      var cl := w.pool.classes[c];
      assert ClassBooks(cl, w.slots, c);
      DrainHeld(cl);
      if Drain(cl).central != [] {
        assert HeldIn(Drain(cl))[Drain(cl).central[0]] >= 1;
      } else {
        BumpKept(w, bytes, e, os, c);
      }
    } else {
      var f := L.FirstFit(Sizes(w.pool.medium), AllocSize(bytes, e));
      if HomeOf(bytes, e).Medium? && f < |w.pool.medium| {
        TakeMedium(w, bytes, e, f);
      } else {
        AllocOsKept(w, bytes, e, os);
      }
    }
  }

  // ---- Which objects come back ---------------------------------------------------------------------------

  lemma {:induction false} InvRun(w: World, run: seq<Action>)
    requires Inv(w)
    ensures Inv(Exec(w, run))
  {
    if run != [] {
      InvRun(w, run[..|run| - 1]);
      StepKept(Exec(w, run[..|run| - 1]), run[|run| - 1]);
    }
  }

  lemma {:induction false} GiveCacheGrows(w: World, run: seq<Action>, c: nat, a: nat)
    requires Shape(w.pool) && c < CLASSES && a in w.pool.classes[c].giveCache
    ensures a in Exec(w, run).pool.classes[c].giveCache
  {
    if run != [] {
      GiveCacheGrows(w, run[..|run| - 1], c, a);
      GiveCacheStep(Exec(w, run[..|run| - 1]), run[|run| - 1], c, a);
    }
  }

  lemma GiveCacheStep(w: World, act: Action, c: nat, a: nat)
    requires Shape(w.pool) && c < CLASSES && a in w.pool.classes[c].giveCache
    ensures a in Step(w, act).pool.classes[c].giveCache
  {
    if Enabled(w, act) {
      match act
      case Alloc(bytes, e, os) => AllocLeavesGiveCache(w.pool, bytes, e, os, c);
      case Free(addr) => FreeGrowsGiveCache(w.pool, addr, w.slots[addr].use.bytes, w.slots[addr].use.e, c);
      case Warmup(os) =>
    }
  }

  lemma AllocLeavesGiveCache(p: Pool, bytes: nat, e: nat, os: nat, c: nat)
    requires Shape(p) && c < CLASSES
    ensures Allocated(p, bytes, e, os).0.classes[c].giveCache == p.classes[c].giveCache
  {
    if AllocSize(bytes, e) <= SMALL_MAX {
      IndexIsLeastFit(AllocSize(bytes, e));
    }
  }

  lemma FreeGrowsGiveCache(p: Pool, addr: nat, bytes: nat, e: nat, c: nat)
    requires Shape(p) && c < CLASSES
    ensures forall a :: a in p.classes[c].giveCache ==> a in Deallocated(p, addr, bytes, e).classes[c].giveCache
  {
    if AllocSize(bytes, e) <= SMALL_MAX {
      IndexIsLeastFit(AllocSize(bytes, e));
    }
  }

  /** The cache that deallocate fills is not the one allocate looks into: the latter is empty in every reachable
      state, and an object that has entered the former stays there for good and is never live again.  It takes at most
      65 objects. */
  lemma GiveCacheIsForGood(w: World, run: seq<Action>, c: nat, a: nat)
    requires Reachable(w) && c < CLASSES && a in w.pool.classes[c].giveCache
    ensures var w' := Exec(w, run);
            && w'.pool.classes[c].takeCache == [] && |w'.pool.classes[c].giveCache| <= 65
            && a in w'.pool.classes[c].giveCache && !Live(w', a)
  {
    ReachableInv(w);
    InvRun(w, run);
    GiveCacheGrows(w, run, c, a);
    var cl := Exec(w, run).pool.classes[c];
    assert ClassBooks(cl, Exec(w, run).slots, c);
    assert HeldIn(cl)[a] >= 1;
  }

  lemma {:induction false} ExecAppend(w: World, run: seq<Action>, more: seq<Action>)
    requires Shape(w.pool)
    ensures Exec(w, run + more) == Exec(Exec(w, run), more)
  {
    if more == [] {
      assert run + more == run;
    } else {
      var m := |more| - 1;
      ExecAppend(w, run, more[..m]);
      assert (run + more)[..|run + more| - 1] == run + more[..m];
    }
  }

  lemma {:induction false} AboveBlocks(blocks: seq<nat>) returns (top: nat)
    ensures forall j :: 0 <= j < |blocks| ==> blocks[j] + BLOCK_SIZE <= top
  {
    if blocks == [] {
      top := 0;
    } else {
      var m := |blocks| - 1;
      top := AboveBlocks(blocks[..m]);
      top := top + blocks[m] + BLOCK_SIZE;
      assert forall j :: 0 <= j < m ==> blocks[j] == blocks[..m][j];
    }
  }

  lemma {:induction false} AboveSlots(slots: map<nat, Slot>) returns (top: nat)
    ensures forall a :: a in slots ==> a + slots[a].len <= top
    decreases |slots|
  {
    if |slots| == 0 {
      top := 0;
    } else {
      var a :| a in slots;
      var rest := slots - {a};
      assert |rest| < |slots| by {
        assert slots.Keys == rest.Keys + {a};
      }
      top := AboveSlots(rest);
      top := top + a + slots[a].len;
    }
  }

  /** The system always has room left for one more block. */
  lemma OsHasRoom(w: World) returns (os: nat)
    ensures OsGives(w, os, BLOCK_SIZE, 64)
  {
    var b := AboveBlocks(w.pool.bump.blocks);
    var s := AboveSlots(w.slots);
    os := 64 * (b + s);
  }

  /** A request of exactly the class size goes to that class. */
  lemma ClassRequest(c: nat)
    requires c < CLASSES
    ensures Request(ClassSize(c), 0) && HomeOf(ClassSize(c), 0) == Small(c) &&
            AllocSize(ClassSize(c), 0) == ClassSize(c)
  {
    ClassSizes(c);
    ClassIndex(c);
    assert Pow2(0) == 1;
  }

  lemma ClassIndex(c: nat)
    requires c < CLASSES
    ensures ClassSize(c) <= HALF && SizeClassIndex(ClassSize(c)) == c
  {
    ClassSizes(c);
    var size := ClassSize(c);
    IndexIsLeastFit(size);
    LeastFitUnique(size, c, SizeClassIndex(size));
  }

  lemma LeastFitUnique(size: nat, c: nat, d: nat)
    requires size == ClassSize(c) <= ClassSize(d) && (d > 0 ==> ClassSize(d - 1) < size)
    ensures c == d
  {
    if d < c {
      ClassOrder(d, c);
    } else if d > c + 1 {
      ClassOrder(c, d - 1);
    }
  }

  lemma ClassOrder(a: nat, b: nat)
    requires a < b
    ensures ClassSize(a) < ClassSize(b)
  {
    PowGrows(a + 3, b + 2);
  }

  /** One allocation of class c that finds something on the stack or in the ring: it hands out `a`, or leaves it in
      one of the two with one object less beside it. */
  lemma OneOut(w: World, c: nat, a: nat, os: nat)
    requires Inv(w) && c < CLASSES && IdleAt(w.slots, a, Small(c)) && OsGives(w, os, BLOCK_SIZE, 64)
    requires var cl := w.pool.classes[c]; a in cl.central || a in cl.ring
    ensures var w' := Step(w, Alloc(ClassSize(c), 0, os));
            var cl, cl' := w.pool.classes[c], w'.pool.classes[c];
            !Live(w', a) ==>
              && IdleAt(w'.slots, a, Small(c)) && (a in cl'.central || a in cl'.ring)
              && |cl'.central| + |cl'.ring| < |cl.central| + |cl.ring|
  {
    var cl := w.pool.classes[c];
    assert ClassBooks(cl, w.slots, c);
    DrainKeeps(cl, a);
    StepTakesTop(w, c, os);
    RestKeeps(Drain(cl), a);
  }

  /** Taking the top leaves every other object where it was. */
  lemma RestKeeps(cl: Class, a: nat)
    requires cl.central != [] && (a in cl.central || a in cl.ring)
    ensures a == cl.central[0] || a in cl.central[1..] || a in cl.ring
  {
    assert cl.central == [cl.central[0]] + cl.central[1..];
  }

  lemma StepTakesTop(w: World, c: nat, os: nat)
    requires Shape(w.pool) && c < CLASSES && OsGives(w, os, BLOCK_SIZE, 64)
    requires w.pool.classes[c].takeCache == [] && Drain(w.pool.classes[c]).central != []
    ensures var dr, w' := Drain(w.pool.classes[c]), Step(w, Alloc(ClassSize(c), 0, os));
            && w'.pool.classes[c] == dr.(central := dr.central[1..])
            && w'.slots == Hand(w.slots, dr.central[0], ClassSize(c), 0)
  {
    ClassRequest(c);
    ClassSizes(c);
    TakesTop(w.pool, c, os);
  }

  lemma TakesTop(p: Pool, c: nat, os: nat)
    requires Shape(p) && c < CLASSES && p.classes[c].takeCache == [] && Drain(p.classes[c]).central != []
    ensures var dr := Drain(p.classes[c]);
            Allocated(p, ClassSize(c), 0, os)
            == (p.(classes := p.classes[c := dr.(central := dr.central[1..])]), dr.central[0])
  {
    ClassRequest(c);
    ClassSizes(c);
  }

  lemma DrainKeeps(cl: Class, a: nat)
    requires a in cl.central || a in cl.ring
    ensures var dr := Drain(cl);
            && dr.central != [] && (a in dr.central || a in dr.ring)
            && |dr.central| + |dr.ring| == |cl.central| + |cl.ring|
  {
    var k := Min(16, |cl.ring|);
    ReverseMultiset(cl.ring[..k]);
    ReverseLength(cl.ring[..k]);
    assert cl.ring == cl.ring[..k] + cl.ring[k..];
    if a in cl.ring[..k] {
      assert a in multiset(Reverse(cl.ring[..k]));
    }
  }

  lemma {:induction false} ReverseLength(q: seq<nat>)
    ensures |Reverse(q)| == |q|
  {
    if q != [] {
      ReverseLength(q[1..]);
    }
  }

  /** An object on the stack or in the ring comes back: allocations of its class hand it out sooner or later. */
  lemma {:induction false} ComesBack(w: World, c: nat, a: nat) returns (run: seq<Action>)
    requires Inv(w) && c < CLASSES && IdleAt(w.slots, a, Small(c))
    requires var cl := w.pool.classes[c]; a in cl.central || a in cl.ring
    ensures Live(Exec(w, run), a)
    decreases |w.pool.classes[c].central| + |w.pool.classes[c].ring|
  {
    var os := OsHasRoom(w);
    var act := Alloc(ClassSize(c), 0, os);
    var w' := Step(w, act);
    OneOut(w, c, a, os);
    StepKept(w, act);
    assert Exec(w, []) == w && [act][..0] == [] && Exec(w, [act]) == w';
    run := [act];
    if !Live(w', a) {
      var more := ComesBack(w', c, a);
      ExecAppend(w, [act], more);
      run := [act] + more;
    }
  }

  predicate Revives(w: World, run: seq<Action>, a: nat)
    requires Shape(w.pool)
  {
    Live(Exec(w, run), a)
  }

  /** Which idle small objects can be handed out again: exactly those that are not in the cache deallocate fills, that
      is, those on the central stack or in the return ring. */
  lemma ReusableIff(w: World, c: nat, a: nat)
    requires Shape(w.pool) && Reachable(w) && c < CLASSES && IdleAt(w.slots, a, Small(c))
    ensures var cl := w.pool.classes[c];
            && (a !in cl.giveCache <==> a in cl.central || a in cl.ring)
            && ((exists run :: Revives(w, run, a)) <==> a !in cl.giveCache)
  {
    ReachableInv(w);
    assert ClassBooks(w.pool.classes[c], w.slots, c);
    InOnePlace(w.pool.classes[c], a);
    if a in w.pool.classes[c].giveCache {
      forall run
        ensures !Revives(w, run, a)
      {
        GiveCacheIsForGood(w, run, c, a);
      }
    } else {
      var run := ComesBack(w, c, a);
      assert Revives(w, run, a);
    }
  }

  lemma InOnePlace(cl: Class, a: nat)
    requires HeldIn(cl)[a] == 1 && cl.takeCache == []
    ensures a !in cl.giveCache <==> a in cl.central || a in cl.ring
  {
    assert multiset(cl.central)[a] + multiset(cl.ring)[a] + multiset(cl.giveCache)[a] == 1;
  }
}
