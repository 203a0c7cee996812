/** MemoryPool::Impl as an object, carrying the ownership of its memory: what a caller of allocate and deallocate can
    rely on. */
module PoolObject {
  import opened Words
  import opened SizeClass
  import opened Rounding
  import opened MemoryPool
  import opened PoolPartition
  import opened PoolReuse
  import L = CentralFreeList

  /** allocated_blocks_ and the statistics only matter to the destructor and to monitoring. */
  class PoolImpl {
    var classes: seq<Class>
    var blocks: seq<nat>
    var bumpIdx: nat
    var bumpPtr: nat
    var bumpOffset: nat
    var medium: seq<FreeNode>
    /** Every piece of memory handed out and not yet back with the system. */
    ghost var slots: map<nat, Slot>

    function View(): (p: Pool)
      reads this
    {
      Pool(classes, Bump(blocks, bumpIdx, bumpPtr, bumpOffset), medium)
    }

    ghost function Owned(): World
      reads this
    {
      World(View(), slots)
    }

    ghost predicate Valid()
      reads this
    {
      Inv(Owned())
    }

    /** `initial` are the four blocks allocated up front. */
    constructor (initial: seq<nat>)
      requires |initial| == 4 && GoodBlocks(initial)
      ensures Valid() && slots == map[] && Owned() == Start(initial)
    {
      classes := seq(CLASSES, _ => Class([], [], [], []));
      blocks, bumpIdx, bumpPtr, bumpOffset := initial, 0, initial[0], 0;
      medium := [];
      slots := map[];
      new;
      RunKept(initial, []);
    }

    method AllocateFromBlock(size: nat, e: nat, os: nat) returns (addr: nat)
      modifies `blocks, `bumpIdx, `bumpPtr, `bumpOffset
      ensures (View().bump, addr) == BumpAlloc(old(View().bump), size, e, os)
    {
      addr := Place(AlignUp(bumpOffset, Align(e)), AlignUp(size, Align(e)), os);
    }

    /** allocate_from_block after the rounding. */
    method Place(off: nat, sz: nat, os: nat) returns (addr: nat)
      modifies `blocks, `bumpIdx, `bumpPtr, `bumpOffset
      ensures (View().bump, addr) == BumpBy(old(View().bump), off, sz, os)
    {
      if off + sz <= BLOCK_SIZE {
        bumpOffset := off + sz;
        return bumpPtr + off;
      }
      bumpIdx := bumpIdx + 1;
      if bumpIdx < |blocks| {
        bumpPtr, bumpOffset := blocks[bumpIdx], sz;
        return bumpPtr;
      }
      blocks := blocks + [os];
      bumpPtr, bumpOffset, bumpIdx := os, sz, |blocks| - 1;
      return os;
    }

    /** The draining loop of allocate. */
    method DrainRing(c: nat)
      requires |classes| == CLASSES && c < CLASSES
      modifies `classes
      ensures classes == old(classes)[c := Drain(old(classes)[c])]
    {
      var drained := 0;
      ghost var was := classes[c];
      assert DrainBy(was, 0) == was;
      while classes[c].ring != []
        invariant drained < 16 && drained <= |was.ring|
        invariant |classes| == CLASSES && classes[c] == DrainBy(was, drained)
        invariant classes == old(classes)[c := classes[c]]
        decreases |classes[c].ring|
      {
        DrainNext(was, drained);
        var cl := classes[c];
        classes := classes[c := cl.(ring := cl.ring[1..], central := [cl.ring[0]] + cl.central)];
        drained := drained + 1;
        if drained >= 16 {
          break;
        }
      }
    }

    /** allocate without the accounting. */
    method Fetch(bytes: nat, e: nat, os: nat) returns (addr: nat)
      requires Shape(View())
      modifies `classes, `blocks, `bumpIdx, `bumpPtr, `bumpOffset, `medium
      ensures (View(), addr) == Allocated(old(View()), bytes, e, os)
    {
      var size := AllocSize(bytes, e);
      if size <= SMALL_MAX {
        IndexIsLeastFit(size);
        var c := SizeClassIndex(size);
        var cl := classes[c];
        if cl.takeCache != [] {
          classes := classes[c := cl.(takeCache := cl.takeCache[1..])];
          return cl.takeCache[0];
        }
        DrainRing(c);
        cl := classes[c];
        if cl.central != [] {
          var rest := cl.(central := cl.central[1..]);
          assert classes[c := rest] == old(classes)[c := rest];
          classes := classes[c := rest];
          return cl.central[0];
        }
        addr := AllocateFromBlock(ClassSize(c), e, os);
        return;
      }
      if size <= MEDIUM_MAX {
        var f := L.FirstFit(Sizes(medium), size);
        if f < |medium| {
          addr := medium[f].addr;
          medium := L.Without(medium, f);
          return;
        }
        return os;
      }
      return os;
    }

    /** The memory returned was not in use, is long enough and 16-byte aligned, and is apart from every other piece; all
        other pieces are used as before.  `os` is what the system allocator would give. */
    method Allocate(bytes: nat, e: nat, os: nat) returns (addr: nat)
      requires Valid() && Enabled(Owned(), Alloc(bytes, e, os))
      modifies this
      ensures Valid() && Owned() == Step(old(Owned()), Alloc(bytes, e, os))
      ensures addr in slots && slots[addr].use == InUse(bytes, e) && bytes <= slots[addr].len && addr % 16 == 0
      ensures !(addr in old(slots) && old(slots)[addr].use.InUse?)
      ensures forall a :: a in slots && a != addr ==>
                a in old(slots) && slots[a] == old(slots)[a] && Apart(addr, slots[addr].len, a, slots[a].len)
      ensures forall a :: a in old(slots) ==> a in slots
      ensures HomeOf(bytes, e).Medium? ==>
                (addr == os <==> forall i :: 0 <= i < |old(medium)| ==> old(medium)[i].size < AllocSize(bytes, e))
    {
      ghost var w := Owned();
      if HomeOf(bytes, e).Medium? {
        MediumIsFirstFit(w, bytes, e, os);
      }
      StepKept(w, Alloc(bytes, e, os));
      ReturnsIdle(w, bytes, e, os);
      addr := Fetch(bytes, e, os);
      slots := Hand(slots, addr, bytes, e);
      assert Owned() == Step(w, Alloc(bytes, e, os));
      HandedOut(Owned(), addr, bytes, e);
    }

    /** deallocate without the accounting. */
    method Release(addr: nat, bytes: nat, e: nat)
      requires Shape(View())
      modifies `classes, `medium
      ensures View() == Deallocated(old(View()), addr, bytes, e)
    {
      var size := AllocSize(bytes, e);
      if size <= SMALL_MAX {
        IndexIsLeastFit(size);
        var c := SizeClassIndex(size);
        var cl := classes[c];
        if |cl.giveCache| > 64 {
          if |cl.ring| < RING_CAPACITY {
            cl := cl.(ring := cl.ring + [addr]);
          }
        } else {
          cl := cl.(giveCache := [addr] + cl.giveCache);
        }
        classes := classes[c := cl];
      } else if size <= MEDIUM_MAX {
        medium := [FreeNode(addr, size)] + medium;
      }
    }

    /** The object is no longer in use, and nothing else changes hands. */
    method Deallocate(addr: nat, bytes: nat, e: nat)
      requires Valid() && addr in slots && slots[addr].use == InUse(bytes, e)
      modifies this
      ensures Valid() && Owned() == Step(old(Owned()), Free(addr))
      ensures addr in slots ==> !slots[addr].use.InUse?
      ensures forall a :: a != addr ==> (a in slots <==> a in old(slots)) && (a in slots ==> slots[a] == old(slots)[a])
    {
      ghost var w := Owned();
      StepKept(w, Free(addr));
      FreedIs(w, addr);
      Release(addr, bytes, e);
      slots := Step(w, Free(addr)).slots;
    }
  }

  lemma HandedOut(w: World, addr: nat, bytes: nat, e: nat)
    requires Inv(w) && addr in w.slots && w.slots[addr].use == InUse(bytes, e)
    ensures bytes <= w.slots[addr].len && addr % 16 == 0
    ensures forall a :: a in w.slots && a != addr ==> Apart(addr, w.slots[addr].len, a, w.slots[a].len)
  {
    assert Sits(w.pool.bump, addr, w.slots[addr]) && UseOk(w.slots[addr]);
  }

  lemma FreedIs(w: World, addr: nat)
    requires Inv(w) && Live(w, addr)
    ensures var w' := Step(w, Free(addr));
            && w'.pool == Deallocated(w.pool, addr, w.slots[addr].use.bytes, w.slots[addr].use.e)
            && (addr in w'.slots ==> !w'.slots[addr].use.InUse?)
            && forall a :: a != addr ==>
                 (a in w'.slots <==> a in w.slots) && (a in w'.slots ==> w'.slots[a] == w.slots[a])
  {
    assert UseOk(w.slots[addr]);
    if w.slots[addr].home.Small? {
      SmallUse(w.slots[addr].use.bytes, w.slots[addr].use.e, w.slots[addr].home.c);
    }
  }
}
