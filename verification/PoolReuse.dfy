/** memory_pool.cc: where the memory of an allocation comes from, and which freed objects are ever handed out again. */
module PoolReuse {
  import opened Words
  import opened SizeClass
  import opened Rounding
  import opened MemoryPool
  import opened PoolPartition
  import L = CentralFreeList

  // ---- Medium objects ---------------------------------------------------------------------------------------

  lemma OsIsNew(w: World, os: nat, len: nat, i: nat)
    requires Inv(w) && OsGives(w, os, len, 16) && len > 0 && i < |w.pool.medium|
    ensures w.pool.medium[i].addr != os
  {
    var a := w.pool.medium[i].addr;
    assert multiset(Addrs(w.pool.medium))[Addrs(w.pool.medium)[i]] >= 1;
    assert IdleAt(w.slots, a, Medium);
    assert Sits(w.pool.bump, a, w.slots[a]);
  }

  /** In every state that keeps the books, a medium request is given memory from the system exactly when every freed
      medium object is recorded as too small, and otherwise the first one that is large enough, which leaves the list.
      */
  lemma MediumIsFirstFit(w: World, bytes: nat, e: nat, os: nat)
    requires Inv(w) && Enabled(w, Alloc(bytes, e, os)) && HomeOf(bytes, e).Medium?
    ensures var m, size, addr := w.pool.medium, AllocSize(bytes, e), Allocated(w.pool, bytes, e, os).1;
            var m' := Allocated(w.pool, bytes, e, os).0.medium;
            && (addr == os <==> forall i :: 0 <= i < |m| ==> m[i].size < size)
            && (addr == os ==> m' == m)
            && (addr != os ==>
                  exists f :: 0 <= f < |m| && m[f].addr == addr && m[f].size >= size && m' == m[..f] + m[f + 1..]
                    && forall i :: 0 <= i < f ==> m[i].size < size)
  {
    var m, size := w.pool.medium, AllocSize(bytes, e);
    var f := L.FirstFit(Sizes(m), size);
    forall i | 0 <= i < |m|
      ensures m[i].addr != os && Sizes(m)[i] == m[i].size
    {
      OsIsNew(w, os, size, i);
    }
    if f < |m| {
      assert m[f].size >= size && Allocated(w.pool, bytes, e, os).1 == m[f].addr;
    }
  }

  /** Recorded sizes are sizes of medium requests. */
  predicate MediumSizes(m: seq<FreeNode>) { forall i :: 0 <= i < |m| ==> SMALL_MAX < m[i].size <= MEDIUM_MAX }

  lemma SizesKept(w: World, act: Action)
    requires Shape(w.pool) && MediumSizes(w.pool.medium)
    ensures MediumSizes(Step(w, act).pool.medium)
  {
    if Enabled(w, act) && act.Alloc? {
      AllocSizesKept(w.pool, act.bytes, act.e, act.os);
    }
  }

  lemma AllocSizesKept(p: Pool, bytes: nat, e: nat, os: nat)
    requires Shape(p) && MediumSizes(p.medium)
    ensures MediumSizes(Allocated(p, bytes, e, os).0.medium)
  {
    var size := AllocSize(bytes, e);
    if size <= SMALL_MAX {
      IndexIsLeastFit(size);
    } else if size <= MEDIUM_MAX {
      var f := L.FirstFit(Sizes(p.medium), size);
      var m' := L.Without(p.medium, f);
      forall i | 0 <= i < |m'|
        ensures SMALL_MAX < m'[i].size <= MEDIUM_MAX
      {
        assert m'[i] == p.medium[if i < f then i else i + 1];
      }
    }
  }

  lemma {:induction false} SizesRun(initial: seq<nat>, run: seq<Action>)
    requires initial != []
    ensures MediumSizes(Exec(Start(initial), run).pool.medium)
  {
    if run != [] {
      SizesRun(initial, run[..|run| - 1]);
      SizesKept(Exec(Start(initial), run[..|run| - 1]), run[|run| - 1]);
    }
  }

  /** The system always has room left for one more object. */
  lemma OsHasMore(w: World, len: nat) returns (os: nat)
    ensures OsGives(w, os, len, 16)
  {
    var b := AboveBlocks(w.pool.bump.blocks);
    var s := AboveSlots(w.slots);
    os := 16 * (b + s);
  }

  lemma MediumRequest(size: nat)
    requires SMALL_MAX < size <= MEDIUM_MAX
    ensures Request(size, 0) && HomeOf(size, 0) == Medium && AllocSize(size, 0) == size
  {
    assert Pow2(0) == 1;
  }

  /** A request of the recorded size of node i takes it, or a node in front of it. */
  lemma OneMediumOut(w: World, i: nat, os: nat)
    requires Shape(w.pool) && MediumSizes(w.pool.medium) && i < |w.pool.medium|
    requires OsGives(w, os, w.pool.medium[i].size, 16)
    ensures var m, w' := w.pool.medium, Step(w, Alloc(w.pool.medium[i].size, 0, os));
            || Live(w', m[i].addr)
            || (i > 0 && i - 1 < |w'.pool.medium| && w'.pool.medium[i - 1] == m[i])
  {
    var m := w.pool.medium;
    MediumRequest(m[i].size);
    var f := L.FirstFit(Sizes(m), m[i].size);
    assert Sizes(m)[i] == m[i].size;
    assert f <= i;
    if f < i {
      assert L.Without(m, f)[i - 1] == m[i];
    }
  }

  /** Requests of the size of an idle medium object hand it out sooner or later. */
  lemma {:induction false} MediumComesBack(w: World, i: nat) returns (run: seq<Action>)
    requires Shape(w.pool) && MediumSizes(w.pool.medium) && i < |w.pool.medium|
    ensures Revives(w, run, w.pool.medium[i].addr)
    decreases i
  {
    var size := w.pool.medium[i].size;
    var os := OsHasMore(w, size);
    var act := Alloc(size, 0, os);
    OneMediumOut(w, i, os);
    SizesKept(w, act);
    assert Exec(w, []) == w && [act][..0] == [] && Exec(w, [act]) == Step(w, act);
    run := [act];
    if !Live(Step(w, act), w.pool.medium[i].addr) {
      var more := MediumComesBack(Step(w, act), i - 1);
      ExecAppend(w, [act], more);
      run := [act] + more;
    }
  }

  /** Every idle medium object is handed out again in some run. */
  lemma MediumReusable(w: World, a: nat)
    requires Shape(w.pool) && Reachable(w) && IdleAt(w.slots, a, Medium)
    ensures exists run :: Revives(w, run, a)
  {
    ReachableInv(w);
    var initial: seq<nat>, history: seq<Action> :| Reaches(initial, history, w);
    SizesRun(initial, history);
    assert multiset(Addrs(w.pool.medium))[a] == 1;
    assert a in Addrs(w.pool.medium);
    var i :| 0 <= i < |w.pool.medium| && Addrs(w.pool.medium)[i] == a;
    var run := MediumComesBack(w, i);
    assert Revives(w, run, a);
  }

  // ---- What freeing does -------------------------------------------------------------------------------------

  /** Where deallocate puts a small object: the first 65 of a class into its cache, the next into the ring while there
      is room, and the rest nowhere. */
  lemma FreedSmallGoes(w: World, a: nat, c: nat)
    requires Shape(w.pool) && Reachable(w) && Live(w, a) && w.slots[a].home == Small(c)
    ensures c < CLASSES
    ensures var cl, w' := w.pool.classes[c], Step(w, Free(a));
            var cl' := w'.pool.classes[c];
            if |cl.giveCache| <= 64 then a in cl'.giveCache && w'.slots[a].use.Idle?
            else if |cl.ring| < RING_CAPACITY then a in cl'.ring && w'.slots[a].use.Idle?
            else w'.slots[a].use.Dropped?
  {
    ReachableInv(w);
    assert UseOk(w.slots[a]);
    SmallUse(w.slots[a].use.bytes, w.slots[a].use.e, c);
  }

  lemma DroppedStep(w: World, act: Action, a: nat)
    requires Inv(w) && a in w.slots && w.slots[a].use.Dropped?
    ensures a in Step(w, act).slots && Step(w, act).slots[a].use.Dropped?
  {
    if Enabled(w, act) && act.Alloc? {
      ReturnsIdle(w, act.bytes, act.e, act.os);
    }
  }

  lemma {:induction false} DroppedStays(w: World, run: seq<Action>, a: nat)
    requires Inv(w) && a in w.slots && w.slots[a].use.Dropped?
    ensures a in Exec(w, run).slots && Exec(w, run).slots[a].use.Dropped?
  {
    if run != [] {
      DroppedStays(w, run[..|run| - 1], a);
      InvRun(w, run[..|run| - 1]);
      DroppedStep(Exec(w, run[..|run| - 1]), run[|run| - 1], a);
    }
  }

  lemma ReachableStep(w: World, act: Action)
    requires Shape(w.pool) && Reachable(w)
    ensures Reachable(Step(w, act))
  {
    var initial: seq<nat>, run: seq<Action> :| Reaches(initial, run, w);
    assert (run + [act])[..|run|] == run;
    assert Reaches(initial, run + [act], Step(w, act));
  }

  /** Whether a small object comes back is decided when it is freed: some run hands it out again exactly if 65 objects
      of its class are cached already and the ring has room. */
  lemma FreedComesBackIff(w: World, a: nat, c: nat)
    requires Shape(w.pool) && Reachable(w) && Live(w, a) && w.slots[a].home == Small(c)
    ensures c < CLASSES
    ensures var cl := w.pool.classes[c];
            (exists run :: Revives(Step(w, Free(a)), run, a)) <==> |cl.giveCache| > 64 && |cl.ring| < RING_CAPACITY
  {
    FreedSmallGoes(w, a, c);
    ReachableStep(w, Free(a));
    var cl, w' := w.pool.classes[c], Step(w, Free(a));
    if |cl.giveCache| > 64 && |cl.ring| >= RING_CAPACITY {
      ReachableInv(w');
      forall run
        ensures !Revives(w', run, a)
      {
        DroppedStays(w', run, a);
      }
    } else {
      ReusableIff(w', c, a);
    }
  }

  /** ... and a medium object always does. */
  lemma FreedMediumComesBack(w: World, a: nat)
    requires Shape(w.pool) && Reachable(w) && Live(w, a) && w.slots[a].home.Medium?
    ensures exists run :: Revives(Step(w, Free(a)), run, a)
  {
    ReachableStep(w, Free(a));
    MediumReusable(Step(w, Free(a)), a);
  }

  // ---- When the system is asked ------------------------------------------------------------------------------

  /** A small request makes the pool get a new block exactly when nothing of its class is on the stack or in the ring,
      the object does not fit into the rest of the current block, and that block is the last. */
  lemma NewBlockIff(w: World, bytes: nat, e: nat, os: nat)
    requires Shape(w.pool) && Reachable(w) && Enabled(w, Alloc(bytes, e, os)) && HomeOf(bytes, e).Small?
    ensures var c, b, b' := HomeOf(bytes, e).c, w.pool.bump, Allocated(w.pool, bytes, e, os).0.bump;
            && c < CLASSES
            && (b'.blocks != b.blocks <==>
                  && w.pool.classes[c].central == [] && w.pool.classes[c].ring == []
                  && AlignUp(b.offset, Align(e)) + AlignUp(ClassSize(c), Align(e)) > BLOCK_SIZE
                  && b.idx + 1 >= |b.blocks|)
            && (b'.blocks != b.blocks ==> b'.blocks == b.blocks + [os] && Allocated(w.pool, bytes, e, os).1 == os)
  {
    ReachableInv(w);
    var c := HomeOf(bytes, e).c;
    SmallUse(bytes, e, c);
    assert ClassBooks(w.pool.classes[c], w.slots, c);
    DrainEmpty(w.pool.classes[c]);
  }

  lemma DrainEmpty(cl: Class)
    ensures Drain(cl).central == [] <==> cl.central == [] && cl.ring == []
  {
    ReverseLength(cl.ring[..Min(16, |cl.ring|)]);
  }

  /** A warm-up adds one block at the end, so that the next small request gets none from the system. */
  lemma WarmupSavesBlock(w: World, os: nat, bytes: nat, e: nat, os': nat)
    requires Shape(w.pool) && Reachable(w) && Enabled(w, Warmup(os))
    requires Enabled(Step(w, Warmup(os)), Alloc(bytes, e, os')) && HomeOf(bytes, e).Small?
    ensures var w' := Step(w, Warmup(os));
            && w'.slots == w.slots && w'.pool.bump.blocks == w.pool.bump.blocks + [os]
            && Allocated(w'.pool, bytes, e, os').0.bump.blocks == w'.pool.bump.blocks
  {
    ReachableInv(w);
    ReachableStep(w, Warmup(os));
    NewBlockIff(Step(w, Warmup(os)), bytes, e, os');
  }
}
