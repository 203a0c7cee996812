/** The tiered pool of memory_pool.cc on one worker thread: size-class caches, return rings and central stacks for small
    objects, bump allocation from 1 MB blocks, a first-fit list for medium objects, and the system allocator for large
    ones.  Memory is a line of addresses; what the system allocator returns is an input. */
module MemoryPool {
  import opened Words
  import opened SizeClass
  import opened Rounding
  import L = CentralFreeList

  const MEDIUM_MAX: nat := 4096
  const BLOCK_SIZE: nat := 1024 * 1024
  const RING_CAPACITY: nat := 256

  // ---- The pool's own data ------------------------------------------------------------------------------

  datatype FreeNode = FreeNode(addr: nat, size: nat)

  /** Per size class: the central stack, the return ring, and the two thread-local caches (allocate and deallocate each
      declare their own). */
  datatype Class = Class(central: seq<nat>, ring: seq<nat>, takeCache: seq<nat>, giveCache: seq<nat>)

  datatype Bump = Bump(blocks: seq<nat>, idx: nat, ptr: nat, offset: nat)

  datatype Pool = Pool(classes: seq<Class>, bump: Bump, medium: seq<FreeNode>)

  predicate Shape(p: Pool) { |p.classes| == CLASSES }

  function Reverse(q: seq<nat>): seq<nat> { if q == [] then [] else Reverse(q[1..]) + [q[0]] }

  /** k returned pointers move from the ring to the central stack. */
  function DrainBy(c: Class, k: nat): Class
    requires k <= |c.ring|
  {
    c.(ring := c.ring[k..], central := Reverse(c.ring[..k]) + c.central)
  }

  /** The starvation guard stops after 16. */
  function Drain(c: Class): Class { DrainBy(c, Min(16, |c.ring|)) }

  lemma DrainNext(c: Class, k: nat)
    requires k < |c.ring|
    ensures var d := DrainBy(c, k);
            DrainBy(c, k + 1) == d.(ring := d.ring[1..], central := [d.ring[0]] + d.central)
  {
    ReverseSnoc(c.ring, k);
  }

  /** Placing `sz` bytes at offset `off` of the current block, or at the start of the next or of a new one (`os`). */
  function BumpBy(b: Bump, off: nat, sz: nat, os: nat): (Bump, nat) {
    if off + sz <= BLOCK_SIZE then (b.(offset := off + sz), b.ptr + off)
    else if b.idx + 1 < |b.blocks| then
      (Bump(b.blocks, b.idx + 1, b.blocks[b.idx + 1], sz), b.blocks[b.idx + 1])
    else (Bump(b.blocks + [os], |b.blocks|, os, sz), os)
  }

  function Align(e: nat): nat { if Pow2(e) > 16 then Pow2(e) else 16 }

  /** allocate_from_block */
  function BumpAlloc(b: Bump, size: nat, e: nat, os: nat): (Bump, nat) {
    BumpBy(b, AlignUp(b.offset, Align(e)), AlignUp(size, Align(e)), os)
  }

  function Sizes(m: seq<FreeNode>): (r: seq<nat>)
    ensures |r| == |m|
  {
    seq(|m|, i requires 0 <= i < |m| => m[i].size)
  }

  /** The small path for class c. */
  function AllocSmall(p: Pool, c: nat, e: nat, os: nat): (r: (Pool, nat))
    requires Shape(p) && c < CLASSES
    ensures Shape(r.0)
  {
    var cl := p.classes[c];
    if cl.takeCache != [] then
      (p.(classes := p.classes[c := cl.(takeCache := cl.takeCache[1..])]), cl.takeCache[0])
    else
      var dr := Drain(cl);
      if dr.central != [] then (p.(classes := p.classes[c := dr.(central := dr.central[1..])]), dr.central[0])
      else
        var (bump, addr) := BumpAlloc(p.bump, ClassSize(c), e, os);
        (p.(classes := p.classes[c := dr], bump := bump), addr)
  }

  function AllocMedium(p: Pool, size: nat, os: nat): (Pool, nat) {
    var f := L.FirstFit(Sizes(p.medium), size);
    if f < |p.medium| then (p.(medium := L.Without(p.medium, f)), p.medium[f].addr) else (p, os)
  }

  function Allocated(p: Pool, bytes: nat, e: nat, os: nat): (r: (Pool, nat))
    requires Shape(p)
    ensures Shape(r.0)
  {
    var size := AllocSize(bytes, e);
    if size <= SMALL_MAX then IndexIsLeastFit(size); AllocSmall(p, SizeClassIndex(size), e, os)
    else if size <= MEDIUM_MAX then AllocMedium(p, size, os)
    else (p, os)
  }

  /** A freed small object goes to the deallocating cache, or to the ring once 65 are cached; a full ring drops it. */
  function PutBack(cl: Class, addr: nat): Class {
    if |cl.giveCache| > 64 then cl.(ring := if |cl.ring| < RING_CAPACITY then cl.ring + [addr] else cl.ring)
    else cl.(giveCache := [addr] + cl.giveCache)
  }

  function FreeSmall(p: Pool, c: nat, addr: nat): (r: Pool)
    requires Shape(p) && c < CLASSES
    ensures Shape(r)
  {
    p.(classes := p.classes[c := PutBack(p.classes[c], addr)])
  }

  function Deallocated(p: Pool, addr: nat, bytes: nat, e: nat): (p': Pool)
    requires Shape(p)
    ensures Shape(p')
  {
    var size := AllocSize(bytes, e);
    if size <= SMALL_MAX then IndexIsLeastFit(size); FreeSmall(p, SizeClassIndex(size), addr)
    else if size <= MEDIUM_MAX then p.(medium := [FreeNode(addr, size)] + p.medium)
    else p
  }

  function Fresh(initial: seq<nat>): Pool
    requires initial != []
  {
    Pool(seq(CLASSES, _ => Class([], [], [], [])), Bump(initial, 0, initial[0], 0), [])
  }

  lemma {:induction false} ReverseAppend(q: seq<nat>, x: nat)
    ensures Reverse(q + [x]) == [x] + Reverse(q)
  {
    if q == [] {
      assert [] + [x] == [x] && [x][1..] == [];
    } else {
      assert (q + [x])[1..] == q[1..] + [x];
      ReverseAppend(q[1..], x);
    }
  }

  lemma ReverseSnoc(q: seq<nat>, k: nat)
    requires k < |q|
    ensures Reverse(q[..k + 1]) == [q[k]] + Reverse(q[..k])
  {
    assert q[..k + 1] == q[..k] + [q[k]];
    ReverseAppend(q[..k], q[k]);
  }
}
