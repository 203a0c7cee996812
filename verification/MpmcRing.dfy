/** The bounded ring of mpmc_ring.h: four ticket counters and a slot table shared by any number of
    producers and consumers.  A call is a sequence of atomic steps (one load, store or compare-exchange
    each); a run is an arbitrary sequence of actions, so every interleaving is a run. */
module MpmcRing {
  import opened Words

  type Item = int

  /** Who may dequeue: anyone through the compare-exchange path, or one designated thread, which may then
      also use the store-only path.  `Unchecked` lifts the discipline. */
  datatype Consumers = Many | Sole(consumer: nat) | Unchecked

  datatype EnqAt = ELoadHead | ELoadTail | ECas | EWrite | EWait | EStore

  /** The steps of dequeue_bulk_mc and, prefixed with S, of the single-consumer dequeue_bulk. */
  datatype DeqAt = DLoadHead | DLoadTail | DCas | DCopy | DWait | DStore
                 | SLoadHead | SLoadTail | SCopy | SStoreHead | SStoreTail

  /** A thread between calls, inside one with its locals, or back from one with the count (and items) it got.
      `objs` is cut to the granted length, as the code cuts `n`; `i` counts the slots written. */
  datatype Thread =
    | Idle
    | Enq(eat: EnqAt, objs: seq<Item>, ehead: nat, i: nat)
    | Deq(dat: DeqAt, n: nat, dhead: nat, buf: seq<Item>)
    | Done(ret: nat, out: seq<Item>)

  /** `accepted`, `delivered`, `producer` and `consumer` are history: the item of every reserved ticket,
      the items handed out so far, and the thread that reserved each ticket on either side. */
  datatype State = State(
    capacity: nat, slots: seq<Item>,
    prodHead: nat, prodTail: nat, consHead: nat, consTail: nat,
    consumers: Consumers, threads: seq<Thread>,
    accepted: seq<Item>, delivered: seq<Item>, producer: seq<nat>, consumer: seq<nat>)

  datatype Action =
    | CallEnqueue(t: nat, objs: seq<Item>)
    | CallDequeueMc(t: nat, n: nat)
    | CallDequeueSc(t: nat, n: nat)
    | Run(t: nat, spurious: bool)

  predicate Shape(s: State) { s.capacity > 0 && |s.slots| == s.capacity }

  function Goto(s: State, t: nat, th: Thread): State
    requires t < |s.threads|
  {
    s.(threads := s.threads[t := th])
  }

  predicate MayDequeue(s: State, t: nat, storeOnly: bool) {
    match s.consumers
    case Many => !storeOnly
    case Sole(c) => t == c
    case Unchecked => true
  }

  /** All consumers use the compare-exchange path, or one thread consumes, or there is nobody to get in its way. */
  predicate Disciplined(consumers: Consumers, threadCount: nat) { !consumers.Unchecked? || threadCount < 2 }

  /** The next atomic step of an enqueuing thread. */
  function EnqStep(ar: Arith, s: State, t: nat, spurious: bool): State
    requires Shape(s) && t < |s.threads| && s.threads[t].Enq?
  {
    var Enq(at, objs, head, i) := s.threads[t];
    match at
    case ELoadHead => Goto(s, t, Enq(ELoadTail, objs, s.prodHead, 0))
    case ELoadTail =>
      var n := Min(|objs|, Sub(ar, Add(ar, s.capacity, s.consTail), head));
      Goto(s, t, if n == 0 then Done(0, []) else Enq(ECas, objs[..n], head, 0))
    case ECas =>
      if spurious || s.prodHead != head then Goto(s, t, Enq(ELoadHead, objs, 0, 0))
      else Goto(s, t, Enq(EWrite, objs, head, 0)).(
        prodHead := Add(ar, head, |objs|),
        accepted := s.accepted + objs, producer := s.producer + seq(|objs|, _ => t))
    case EWrite =>
      if i < |objs| then
        Goto(s, t, Enq(EWrite, objs, head, i + 1)).(
          slots := s.slots[Index(ar, s.capacity, Add(ar, head, i)) := objs[i]])
      else Goto(s, t, Enq(EWait, objs, head, i))
    case EWait => if s.prodTail == head then Goto(s, t, Enq(EStore, objs, head, i)) else s
    case EStore => Goto(s, t, Done(|objs|, [])).(prodTail := Add(ar, head, |objs|))
  }

  /** The next atomic step of a dequeuing thread. */
  function DeqStep(ar: Arith, s: State, t: nat, spurious: bool): State
    requires Shape(s) && t < |s.threads| && s.threads[t].Deq?
  {
    var Deq(at, n, head, buf) := s.threads[t];
    match at
    case DLoadHead => Goto(s, t, Deq(DLoadTail, n, s.consHead, []))
    case SLoadHead => Goto(s, t, Deq(SLoadTail, n, s.consHead, []))
    case DLoadTail =>
      var m := Min(n, Sub(ar, s.prodTail, head));
      Goto(s, t, if m == 0 then Done(0, []) else Deq(DCas, m, head, []))
    case SLoadTail =>
      var m := Min(n, Sub(ar, s.prodTail, head));
      Goto(s, t, if m == 0 then Done(0, []) else Deq(SCopy, m, head, []))
    case DCas =>
      if spurious || s.consHead != head then Goto(s, t, Deq(DLoadHead, n, 0, []))
      else Goto(s, t, Deq(DCopy, n, head, [])).(
        consHead := Add(ar, head, n), consumer := s.consumer + seq(n, _ => t))
    case DCopy | SCopy =>
      if |buf| < n then
        Goto(s, t, Deq(at, n, head, buf + [s.slots[Index(ar, s.capacity, Add(ar, head, |buf|))]]))
      else Goto(s, t, Deq(if at.DCopy? then DWait else SStoreHead, n, head, buf))
    case DWait => if s.consTail == head then Goto(s, t, Deq(DStore, n, head, buf)) else s
    case SStoreHead =>
      Goto(s, t, Deq(SStoreTail, n, head, buf)).(
        consHead := Add(ar, head, n), consumer := s.consumer + seq(n, _ => t))
    case DStore | SStoreTail =>
      Goto(s, t, Done(n, buf)).(consTail := Add(ar, head, n), delivered := s.delivered + buf)
  }

  /** One action; an action that is not enabled leaves the state as it is. */
  function Step(ar: Arith, s: State, a: Action): (s': State)
    requires Shape(s)
    ensures Shape(s') && |s'.threads| == |s.threads| && s'.capacity == s.capacity
  {
    if a.t >= |s.threads| then s
    else match s.threads[a.t]
      case Enq(_, _, _, _) => if a.Run? then EnqStep(ar, s, a.t, a.spurious) else s
      case Deq(_, _, _, _) => if a.Run? then DeqStep(ar, s, a.t, a.spurious) else s
      case _ =>
        match a
        case CallEnqueue(t, objs) => Goto(s, t, Enq(ELoadHead, objs, 0, 0))
        case CallDequeueMc(t, n) => if MayDequeue(s, t, false) then Goto(s, t, Deq(DLoadHead, n, 0, [])) else s
        case CallDequeueSc(t, n) => if MayDequeue(s, t, true) then Goto(s, t, Deq(SLoadHead, n, 0, [])) else s
        case Run(_, _) => s
  }

  /** The constructor's rounding: the least power of two not below the requested capacity. */
  method RoundUp(capacity: nat) returns (cap: nat, e: nat)
    requires capacity <= HALF
    ensures e <= 63 && cap == Pow2(e) && capacity <= cap
    ensures forall k :: 0 <= k < e ==> Pow2(k) < capacity
  {
    HalfIsPow2();
    cap, e := 1, 0;
    while cap < capacity
      invariant e <= 63 && cap == Pow2(e) && forall k :: 0 <= k < e ==> Pow2(k) < capacity
      decreases capacity - cap
    {
      cap, e := cap * 2 % WORD, e + 1;
    }
  }

  /** The rounding loop shifts a 64-bit word: it reaches a value that ends it exactly when the requested capacity is at
      most 2^63.  Above that the word becomes zero after 64 rounds and the constructor never returns. */
  lemma RoundUpEndsIff(capacity: nat)
    requires capacity < WORD
    ensures (exists k: nat :: Pow2(k) % WORD >= capacity) <==> capacity <= HALF
  {
    WordIsPow2();
    HalfIsPow2();
    assert Pow2(63) % WORD == HALF;
    forall k: nat
      ensures Pow2(k) % WORD <= HALF
    {
      if k <= 63 {
        PowGrows(k, 63);
      } else {
        PowSum(64, k - 64);
        assert Pow2(k) == WORD * Pow2(k - 64);
        DivModUnique(Pow2(k), WORD, Pow2(k - 64), 0);
      }
    }
  }

  function Init(capacity: nat, slots: seq<Item>, threadCount: nat, consumers: Consumers): (s: State)
    requires capacity > 0 && |slots| == capacity
    ensures Shape(s)
  {
    State(capacity, slots, 0, 0, 0, 0, consumers, seq(threadCount, _ => Idle), [], [], [], [])
  }

  /** The state after a run: the actions are taken in order. */
  function Exec(ar: Arith, s: State, run: seq<Action>): (s': State)
    requires Shape(s)
    ensures Shape(s') && |s'.threads| == |s.threads| && s'.capacity == s.capacity
  {
    if run == [] then s else Step(ar, Exec(ar, s, run[..|run| - 1]), run[|run| - 1])
  }

  // ---- What every run keeps -------------------------------------------------------------------------

  predicate Reserving(th: Thread) { th.Enq? && (th.eat.EWrite? || th.eat.EWait? || th.eat.EStore?) }

  predicate Claiming(th: Thread) {
    th.Deq? && (th.dat.DCopy? || th.dat.DWait? || th.dat.DStore? || th.dat.SStoreTail?)
  }

  predicate StoreOnly(at: DeqAt) {
    at.SLoadHead? || at.SLoadTail? || at.SCopy? || at.SStoreHead? || at.SStoreTail?
  }

  predicate Buffered(at: DeqAt) {
    at.DCopy? || at.DWait? || at.DStore? || at.SCopy? || at.SStoreHead? || at.SStoreTail?
  }

  function Slot(s: State, k: nat): Item
    requires Shape(s)
  {
    s.slots[k % s.capacity]
  }

  /** The counters are ordered and at most `capacity` tickets are reserved and unreleased. */
  predicate Ordered(s: State) {
    && s.consTail <= s.consHead <= s.prodTail <= s.prodHead <= s.consTail + s.capacity
    && |s.accepted| == |s.producer| == s.prodHead
    && |s.consumer| == s.consHead
    && s.delivered == s.accepted[..s.consTail]
  }

  predicate Published(s: State)
    requires Shape(s) && Ordered(s)
  {
    forall k :: s.consTail <= k < s.prodTail ==> Slot(s, k) == s.accepted[k]
  }

  /** A reserved range: unpublished tickets that belong to thread `t`, the first `written` of them filled. */
  predicate Reservation(s: State, t: nat, objs: seq<Item>, head: nat, written: nat)
    requires Shape(s) && Ordered(s)
  {
    && 0 < |objs| && written <= |objs|
    && s.prodTail <= head && head + |objs| <= s.prodHead
    && s.accepted[head..head + |objs|] == objs
    && (forall k :: head <= k < head + |objs| ==> s.producer[k] == t)
    && (forall k :: head <= k < head + written ==> Slot(s, k) == s.accepted[k])
  }

  predicate Copied(s: State, n: nat, head: nat, buf: seq<Item>)
    requires Ordered(s)
  {
    && 0 < n && |buf| <= n && head + n <= s.prodTail
    && s.accepted[head..head + |buf|] == buf
  }

  predicate Claim(s: State, t: nat, n: nat, head: nat)
    requires Ordered(s)
  {
    && s.consTail <= head && head + n <= s.consHead
    && forall k :: head <= k < head + n ==> s.consumer[k] == t
  }

  predicate EnqOk(s: State, t: nat)
    requires Shape(s) && Ordered(s) && t < |s.threads| && s.threads[t].Enq?
  {
    var Enq(at, objs, head, i) := s.threads[t];
    && (at.ELoadTail? || at.ECas? ==> head <= s.prodHead)
    && (at.ECas? ==> 0 < |objs| && head + |objs| <= s.consTail + s.capacity)
    && (Reserving(s.threads[t]) ==> Reservation(s, t, objs, head, i))
    && (at.EWait? || at.EStore? ==> i == |objs|)
    && (at.EStore? ==> s.prodTail == head)
  }

  predicate DeqOk(s: State, t: nat)
    requires Shape(s) && Ordered(s) && t < |s.threads| && s.threads[t].Deq?
  {
    var Deq(at, n, head, buf) := s.threads[t];
    && MayDequeue(s, t, StoreOnly(at))
    && (at.DLoadTail? || at.DCas? ==> head <= s.consHead)
    && (at.DCas? ==> 0 < n && head + n <= s.prodTail)
    && (Buffered(at) ==> Copied(s, n, head, buf))
    && (Buffered(at) && !at.DCopy? && !at.SCopy? ==> |buf| == n)
    && (Claiming(s.threads[t]) ==> Claim(s, t, n, head))
    && (at.DStore? ==> s.consTail == head)
    && (StoreOnly(at) && !at.SStoreTail? ==> s.consTail == s.consHead)
    && (StoreOnly(at) && !at.SLoadHead? ==> s.consTail == head)
  }

  /** Every reserved, unpublished ticket has a thread working on it. */
  predicate ReservedOwned(s: State)
    requires Ordered(s)
  {
    forall k :: s.prodTail <= k < s.prodHead ==>
      && s.producer[k] < |s.threads|
      && var th := s.threads[s.producer[k]];
      && Reserving(th) && th.ehead <= k < th.ehead + |th.objs|
  }

  /** Every claimed, unreleased ticket has a thread working on it. */
  predicate ClaimedOwned(s: State)
    requires Ordered(s)
  {
    forall k :: s.consTail <= k < s.consHead ==>
      && s.consumer[k] < |s.threads|
      && var th := s.threads[s.consumer[k]];
      && Claiming(th) && th.dhead <= k < th.dhead + th.n
  }

  predicate ThreadOk(s: State, t: nat)
    requires Shape(s) && Ordered(s) && t < |s.threads|
  {
    && (s.threads[t].Enq? ==> EnqOk(s, t))
    && (s.threads[t].Deq? ==> DeqOk(s, t))
  }

  predicate Inv(s: State) {
    && Shape(s) && Ordered(s) && Published(s) && ReservedOwned(s) && ClaimedOwned(s)
    && Disciplined(s.consumers, |s.threads|)
    && forall t :: 0 <= t < |s.threads| ==> ThreadOk(s, t)
  }

  /** What a step of another thread may do to the facts thread `u` relies on. */
  predicate Rely(s: State, s': State, u: nat)
    requires Shape(s) && Shape(s') && Ordered(s) && Ordered(s')
    requires u < |s.threads|
  {
    && |s'.threads| == |s.threads| && s'.threads[u] == s.threads[u]
    && s'.capacity == s.capacity && s'.consumers == s.consumers
    && s.prodHead <= s'.prodHead && s.prodTail <= s'.prodTail
    && s.consHead <= s'.consHead && s.consTail <= s'.consTail
    && s.accepted <= s'.accepted && s.producer <= s'.producer && s.consumer <= s'.consumer
  }

  predicate EnqRely(s: State, s': State, u: nat)
    requires Shape(s) && Shape(s') && u < |s.threads| && s.threads[u].Enq?
  {
    var Enq(at, objs, head, i) := s.threads[u];
    && (Reserving(s.threads[u]) ==>
          && s'.prodTail <= head
          && forall k :: head <= k < head + |objs| ==> Slot(s', k) == Slot(s, k))
    && (at.EStore? ==> s'.prodTail == s.prodTail)
  }

  predicate DeqRely(s: State, s': State, u: nat)
    requires u < |s.threads| && s.threads[u].Deq?
  {
    var Deq(at, n, head, buf) := s.threads[u];
    && (Claiming(s.threads[u]) ==> s'.consTail <= head)
    && (at.DStore? || StoreOnly(at) ==> s'.consTail == s.consTail)
    && (StoreOnly(at) ==> s'.consHead == s.consHead)
  }

  lemma EnqRelyKeeps(s: State, s': State, u: nat)
    requires Shape(s) && Shape(s') && Ordered(s) && Ordered(s')
    requires u < |s.threads| && s.threads[u].Enq?
    requires Rely(s, s', u) && EnqRely(s, s', u) && EnqOk(s, u)
    ensures EnqOk(s', u)
  {
  }

  lemma DeqRelyKeeps(s: State, s': State, u: nat)
    requires Shape(s) && Shape(s') && Ordered(s) && Ordered(s')
    requires u < |s.threads| && s.threads[u].Deq?
    requires Rely(s, s', u) && DeqRely(s, s', u) && DeqOk(s, u)
    ensures DeqOk(s', u)
  {
  }

  /** A step of another thread leaves thread `u` what it relies on. */
  predicate Unharmed(s: State, s': State, u: nat)
    requires Shape(s) && Shape(s') && Ordered(s) && Ordered(s') && u < |s.threads|
  {
    && Rely(s, s', u)
    && (s.threads[u].Enq? ==> EnqRely(s, s', u))
    && (s.threads[u].Deq? ==> DeqRely(s, s', u))
  }

  lemma OthersKept(s: State, s': State, t: nat)
    requires Inv(s) && Shape(s') && Ordered(s') && |s'.threads| == |s.threads|
    requires forall u :: 0 <= u < |s.threads| && u != t ==> Unharmed(s, s', u)
    ensures forall u :: 0 <= u < |s.threads| && u != t ==> ThreadOk(s', u)
  {
    forall u | 0 <= u < |s.threads| && u != t
      ensures ThreadOk(s', u)
    {
      assert ThreadOk(s, u) && Unharmed(s, s', u);
      if s.threads[u].Enq? {
        EnqRelyKeeps(s, s', u);
      } else if s.threads[u].Deq? {
        DeqRelyKeeps(s, s', u);
      }
    }
  }

  /** A step that moves only the thread itself. */
  lemma LocalKept(s: State, t: nat, th: Thread)
    requires Inv(s) && t < |s.threads|
    requires Reserving(s.threads[t]) ==>
               Reserving(th) && th.ehead == s.threads[t].ehead && |th.objs| == |s.threads[t].objs|
    requires Claiming(s.threads[t]) ==>
               Claiming(th) && th.dhead == s.threads[t].dhead && th.n == s.threads[t].n
    requires ThreadOk(Goto(s, t, th), t)
    ensures Inv(Goto(s, t, th))
  {
    forall u | 0 <= u < |s.threads| && u != t
      ensures Unharmed(s, Goto(s, t, th), u)
    {
      assert ThreadOk(s, u);
    }
    OthersKept(s, Goto(s, t, th), t);
  }

  lemma EnqLocalKept(s: State, t: nat, spurious: bool)
    requires Inv(s) && t < |s.threads| && s.threads[t].Enq?
    requires var th := s.threads[t];
             th.eat.ELoadHead? || th.eat.ELoadTail? || th.eat.EWait?
             || (th.eat.EWrite? && th.i >= |th.objs|)
             || (th.eat.ECas? && (spurious || s.prodHead != th.ehead))
    ensures Inv(EnqStep(Unbounded, s, t, spurious))
  {
    assert ThreadOk(s, t);
    var s' := EnqStep(Unbounded, s, t, spurious);
    LocalKept(s, t, s'.threads[t]);
  }

  lemma EnqCasKept(s: State, t: nat)
    requires Inv(s) && t < |s.threads| && s.threads[t].Enq?
    requires s.threads[t].eat.ECas? && s.prodHead == s.threads[t].ehead
    ensures Inv(EnqStep(Unbounded, s, t, false))
  {
    assert ThreadOk(s, t);
    var s' := EnqStep(Unbounded, s, t, false);
    forall u | 0 <= u < |s.threads| && u != t
      ensures Unharmed(s, s', u)
    {
      assert ThreadOk(s, u);
    }
    OthersKept(s, s', t);
  }

  lemma WriteElsewhere(s: State, s': State, at: nat, x: Item)
    requires Shape(s) && Ordered(s) && s.prodTail <= at < s.prodHead
    requires s' == s.(slots := s.slots[at % s.capacity := x], threads := s'.threads)
    ensures Slot(s', at) == x
    ensures forall k :: s.consTail <= k < s.prodHead && k != at ==> Slot(s', k) == Slot(s, k)
  {
    forall k | s.consTail <= k < s.prodHead && k != at
      ensures Slot(s', k) == Slot(s, k)
    {
      SlotUnique(k, at, s.capacity, s.consTail);
    }
  }

  lemma EnqWriteKept(s: State, t: nat, spurious: bool)
    requires Inv(s) && t < |s.threads| && s.threads[t].Enq?
    requires s.threads[t].eat.EWrite? && s.threads[t].i < |s.threads[t].objs|
    ensures Inv(EnqStep(Unbounded, s, t, spurious))
  {
    assert ThreadOk(s, t);
    var s' := EnqStep(Unbounded, s, t, spurious);
    var Enq(_, objs, head, i) := s.threads[t];
    assert s.accepted[head + i] == objs[i] by {
      assert s.accepted[head..head + |objs|][i] == objs[i];
    }
    WriteElsewhere(s, s', head + i, objs[i]);
    forall u | 0 <= u < |s.threads| && u != t
      ensures Unharmed(s, s', u)
    {
      assert ThreadOk(s, u);
      assert s.producer[head + i] == t;
    }
    OthersKept(s, s', t);
  }

  lemma EnqStoreKept(s: State, t: nat, spurious: bool)
    requires Inv(s) && t < |s.threads| && s.threads[t].Enq? && s.threads[t].eat.EStore?
    ensures Inv(EnqStep(Unbounded, s, t, spurious))
  {
    assert ThreadOk(s, t);
    var s' := EnqStep(Unbounded, s, t, spurious);
    forall u | 0 <= u < |s.threads| && u != t
      ensures Unharmed(s, s', u)
    {
      assert ThreadOk(s, u);
      if Reserving(s.threads[u]) {
        assert s.producer[s.threads[u].ehead] == u;
      }
    }
    OthersKept(s, s', t);
  }

  lemma DeqLocalKept(s: State, t: nat, spurious: bool)
    requires Inv(s) && t < |s.threads| && s.threads[t].Deq?
    requires var th := s.threads[t];
             th.dat.DLoadHead? || th.dat.DLoadTail? || th.dat.SLoadHead? || th.dat.SLoadTail? || th.dat.DWait?
             || (th.dat.DCas? && (spurious || s.consHead != th.dhead))
    ensures Inv(DeqStep(Unbounded, s, t, spurious))
  {
    assert ThreadOk(s, t);
    DeqLocalOk(s, t, spurious);
    LocalKept(s, t, DeqStep(Unbounded, s, t, spurious).threads[t]);
  }

  lemma DeqLocalOk(s: State, t: nat, spurious: bool)
    requires Shape(s) && Ordered(s) && t < |s.threads| && s.threads[t].Deq? && DeqOk(s, t)
    requires var th := s.threads[t];
             th.dat.DLoadHead? || th.dat.DLoadTail? || th.dat.SLoadHead? || th.dat.SLoadTail? || th.dat.DWait?
             || (th.dat.DCas? && (spurious || s.consHead != th.dhead))
    ensures var s' := DeqStep(Unbounded, s, t, spurious);
            s'.threads[t].Done? || (s'.threads[t].Deq? && DeqOk(s', t))
  {
  }

  lemma DeqCopyKept(s: State, t: nat, spurious: bool)
    requires Inv(s) && t < |s.threads| && s.threads[t].Deq? && (s.threads[t].dat.DCopy? || s.threads[t].dat.SCopy?)
    ensures Inv(DeqStep(Unbounded, s, t, spurious))
  {
    assert ThreadOk(s, t);
    CopyOne(s, t, spurious);
    LocalKept(s, t, DeqStep(Unbounded, s, t, spurious).threads[t]);
  }

  lemma CopyOne(s: State, t: nat, spurious: bool)
    requires Shape(s) && Ordered(s) && Published(s) && t < |s.threads| && s.threads[t].Deq? && DeqOk(s, t)
    requires s.threads[t].dat.DCopy? || s.threads[t].dat.SCopy?
    requires s.consTail <= s.threads[t].dhead
    ensures DeqOk(DeqStep(Unbounded, s, t, spurious), t)
  {
    var Deq(_, n, head, buf) := s.threads[t];
    if |buf| < n {
      CopiedMore(s, n, head, buf, Slot(s, head + |buf|));
    }
  }

  lemma CopiedMore(s: State, n: nat, head: nat, buf: seq<Item>, x: Item)
    requires Ordered(s) && Copied(s, n, head, buf) && |buf| < n && x == s.accepted[head + |buf|]
    ensures Copied(s, n, head, buf + [x])
  {
  }

  /** Advancing cons.head: the compare-exchange of a consumer, or the plain store of the sole one. */
  lemma DeqClaimKept(s: State, t: nat)
    requires Inv(s) && t < |s.threads| && s.threads[t].Deq?
    requires s.threads[t].dat.SStoreHead? || (s.threads[t].dat.DCas? && s.consHead == s.threads[t].dhead)
    ensures Inv(DeqStep(Unbounded, s, t, false))
  {
    assert ThreadOk(s, t);
    var s' := DeqStep(Unbounded, s, t, false);
    forall u | 0 <= u < |s.threads| && u != t
      ensures Unharmed(s, s', u)
    {
      assert ThreadOk(s, u);
    }
    OthersKept(s, s', t);
  }

  /** Advancing cons.tail: the tickets of `t` become free for producers. */
  lemma DeqReleaseKept(s: State, t: nat, spurious: bool)
    requires Inv(s) && t < |s.threads| && s.threads[t].Deq? &&
             (s.threads[t].dat.DStore? || s.threads[t].dat.SStoreTail?)
    ensures Inv(DeqStep(Unbounded, s, t, spurious))
  {
    assert ThreadOk(s, t);
    var s' := DeqStep(Unbounded, s, t, spurious);
    ReleaseOrdered(s, t, spurious);
    forall u | 0 <= u < |s.threads| && u != t
      ensures Unharmed(s, s', u)
    {
      ReleaseUnharmed(s, t, spurious, u);
    }
    OthersKept(s, s', t);
  }

  lemma ReleaseOrdered(s: State, t: nat, spurious: bool)
    requires Shape(s) && Ordered(s) && t < |s.threads| && s.threads[t].Deq? && DeqOk(s, t)
    requires s.threads[t].dat.DStore? || s.threads[t].dat.SStoreTail?
    ensures Ordered(DeqStep(Unbounded, s, t, spurious))
  {
    var Deq(_, n, head, buf) := s.threads[t];
    Split(s.accepted, 0, head, head + n);
  }

  lemma ReleaseUnharmed(s: State, t: nat, spurious: bool, u: nat)
    requires Inv(s) && t < |s.threads| && s.threads[t].Deq? && u < |s.threads| && u != t
    requires s.threads[t].dat.DStore? || s.threads[t].dat.SStoreTail?
    requires Ordered(DeqStep(Unbounded, s, t, spurious))
    ensures Unharmed(s, DeqStep(Unbounded, s, t, spurious), u)
  {
    assert ThreadOk(s, t) && ThreadOk(s, u);
    if Claiming(s.threads[u]) {
      assert s.consumer[s.threads[u].dhead] == u;
    }
  }

  lemma CallKept(s: State, a: Action)
    requires Inv(s) && a.t < |s.threads| && (s.threads[a.t].Idle? || s.threads[a.t].Done?)
    ensures Inv(Step(Unbounded, s, a))
  {
    var s' := Step(Unbounded, s, a);
    if s.consTail < s.consHead {
      assert Claiming(s.threads[s.consumer[s.consTail]]);
      assert ThreadOk(s, s.consumer[s.consTail]);
    }
    LocalKept(s, a.t, s'.threads[a.t]);
  }

  lemma StepKept(s: State, a: Action)
    requires Inv(s)
    ensures Inv(Step(Unbounded, s, a))
  {
    if a.t < |s.threads| {
      var th := s.threads[a.t];
      if th.Idle? || th.Done? {
        CallKept(s, a);
      } else if a.Run? && th.Enq? {
        if th.eat.ECas? && !a.spurious && s.prodHead == th.ehead {
          EnqCasKept(s, a.t);
        } else if th.eat.EWrite? && th.i < |th.objs| {
          EnqWriteKept(s, a.t, a.spurious);
        } else if th.eat.EStore? {
          EnqStoreKept(s, a.t, a.spurious);
        } else {
          EnqLocalKept(s, a.t, a.spurious);
        }
      } else if a.Run? {
        if th.dat.SStoreHead? || (th.dat.DCas? && !a.spurious && s.consHead == th.dhead) {
          DeqClaimKept(s, a.t);
        } else if th.dat.DCopy? || th.dat.SCopy? {
          DeqCopyKept(s, a.t, a.spurious);
        } else if th.dat.DStore? || th.dat.SStoreTail? {
          DeqReleaseKept(s, a.t, a.spurious);
        } else {
          DeqLocalKept(s, a.t, a.spurious);
        }
      }
    }
  }

  lemma {:induction false} RunKept(s: State, run: seq<Action>)
    requires Inv(s)
    ensures Inv(Exec(Unbounded, s, run))
  {
    if run != [] {
      RunKept(s, run[..|run| - 1]);
      StepKept(Exec(Unbounded, s, run[..|run| - 1]), run[|run| - 1]);
    }
  }

  /** A state some run reaches from an empty ring whose consumers keep to their discipline. */
  ghost predicate Reachable(s: State) {
    exists capacity, slots, threadCount, consumers, run ::
      Reaches(capacity, slots, threadCount, consumers, run, s)
  }

  ghost predicate Reaches(capacity: nat, slots: seq<Item>, threadCount: nat, consumers: Consumers,
                          run: seq<Action>, s: State)
  {
    && capacity > 0 && |slots| == capacity && Disciplined(consumers, threadCount)
    && s == Exec(Unbounded, Init(capacity, slots, threadCount, consumers), run)
  }

  lemma ReachableInv(s: State)
    requires Reachable(s)
    ensures Inv(s)
  {
    var capacity, slots, threadCount, consumers, run :|
      Reaches(capacity, slots, threadCount, consumers, run, s);
    RunKept(Init(capacity, slots, threadCount, consumers), run);
  }

  // ---- Main results ---------------------------------------------------------------------------------

  predicate InCall(th: Thread) { th.Enq? || th.Deq? }

  /** The step takes effect as a call of enqueue_bulk by thread t. */
  predicate Calls(s: State, a: Action, t: nat) {
    a.CallEnqueue? && a.t == t && t < |s.threads| && !InCall(s.threads[t])
  }

  /** The argument of the latest enqueue call of thread t in a run. */
  function Offered(s0: State, run: seq<Action>, t: nat): seq<Item>
    requires Shape(s0)
  {
    if run == [] then []
    else
      var before, a := run[..|run| - 1], run[|run| - 1];
      if Calls(Exec(Unbounded, s0, before), a, t) then a.objs else Offered(s0, before, t)
  }

  /** What an enqueue that returns with step `a` has put in: as many items of its argument as it says. */
  function Put(s: State, a: Action, arg: seq<Item>): seq<Item>
    requires Shape(s)
  {
    if a.t < |s.threads| && s.threads[a.t].Enq? && Step(Unbounded, s, a).threads[a.t].Done? then
      arg[..Min(|arg|, Step(Unbounded, s, a).threads[a.t].ret)]
    else []
  }

  /** What a dequeue that returns with step `a` gives its caller. */
  function Got(s: State, a: Action): seq<Item>
    requires Shape(s)
  {
    if a.t < |s.threads| && s.threads[a.t].Deq? && Step(Unbounded, s, a).threads[a.t].Done? then
      Step(Unbounded, s, a).threads[a.t].out
    else []
  }

  /** What the enqueue calls of a run have put in, in the order in which they returned. */
  function Sent(s0: State, run: seq<Action>): seq<Item>
    requires Shape(s0)
  {
    if run == [] then []
    else
      var before, a := run[..|run| - 1], run[|run| - 1];
      Sent(s0, before) + Put(Exec(Unbounded, s0, before), a, Offered(s0, before, a.t))
  }

  /** What the dequeue calls of a run have given to their callers, in the order in which they returned. */
  function Received(s0: State, run: seq<Action>): seq<Item>
    requires Shape(s0)
  {
    if run == [] then []
    else
      var before := run[..|run| - 1];
      Received(s0, before) + Got(Exec(Unbounded, s0, before), run[|run| - 1])
  }

  lemma {:induction false} ReceivedIs(s0: State, run: seq<Action>)
    requires Shape(s0) && s0.delivered == []
    ensures Received(s0, run) == Exec(Unbounded, s0, run).delivered
  {
    if run != [] {
      ReceivedIs(s0, run[..|run| - 1]);
      GotIs(Exec(Unbounded, s0, run[..|run| - 1]), run[|run| - 1]);
    }
  }

  lemma GotIs(s: State, a: Action)
    requires Shape(s)
    ensures Step(Unbounded, s, a).delivered == s.delivered + Got(s, a)
  {
    if a.t < |s.threads| && s.threads[a.t].Deq? && a.Run? {
      DeqGot(s, a.t, a.spurious);
    }
  }

  lemma DeqGot(s: State, t: nat, spurious: bool)
    requires Shape(s) && t < |s.threads| && s.threads[t].Deq?
    ensures var s' := DeqStep(Unbounded, s, t, spurious);
            s'.delivered == s.delivered + if s'.threads[t].Done? then s'.threads[t].out else []
  {
  }

  /** A thread inside an enqueue works on a prefix of the argument. */
  lemma {:induction false} BatchIsPrefix(s0: State, run: seq<Action>, t: nat)
    requires Shape(s0) && t < |s0.threads| && !s0.threads[t].Enq?
    ensures var th := Exec(Unbounded, s0, run).threads[t];
            th.Enq? ==> th.objs <= Offered(s0, run, t)
  {
    if run != [] {
      BatchIsPrefix(s0, run[..|run| - 1], t);
      BatchShrinks(Exec(Unbounded, s0, run[..|run| - 1]), run[|run| - 1], t);
    }
  }

  lemma BatchShrinks(s: State, a: Action, t: nat)
    requires Shape(s) && t < |s.threads|
    ensures var th, th' := s.threads[t], Step(Unbounded, s, a).threads[t];
            th'.Enq? ==> if Calls(s, a, t) then th'.objs == a.objs else th.Enq? && th'.objs <= th.objs
  {
    if a.t == t && s.threads[t].Enq? && a.Run? {
      EnqShrinks(s, t, a.spurious);
    }
  }

  lemma EnqShrinks(s: State, t: nat, spurious: bool)
    requires Shape(s) && t < |s.threads| && s.threads[t].Enq?
    ensures var th' := EnqStep(Unbounded, s, t, spurious).threads[t];
            th'.Enq? ==> th'.objs <= s.threads[t].objs
  {
  }

  lemma PutIs(s: State, a: Action, arg: seq<Item>)
    requires Inv(s) && (a.t < |s.threads| && s.threads[a.t].Enq? ==> s.threads[a.t].objs <= arg)
    ensures Ordered(Step(Unbounded, s, a))
    ensures var s' := Step(Unbounded, s, a);
            s'.accepted[..s'.prodTail] == s.accepted[..s.prodTail] + Put(s, a, arg)
  {
    StepOrdered(s, a);
    if Publishes(s, a) {
      assert ThreadOk(s, a.t);
      Split(s.accepted, 0, s.prodTail, s.prodTail + |s.threads[a.t].objs|);
    } else {
      PutNothing(s, a, arg);
    }
  }

  lemma PutNothing(s: State, a: Action, arg: seq<Item>)
    requires Shape(s) && !Publishes(s, a)
    ensures var s' := Step(Unbounded, s, a);
            s'.prodTail == s.prodTail && s.accepted <= s'.accepted && Put(s, a, arg) == []
  {
  }

  lemma {:induction false} SentIs(s0: State, run: seq<Action>)
    requires Inv(s0) && s0.prodTail == 0 && forall t :: 0 <= t < |s0.threads| ==> !s0.threads[t].Enq?
    ensures Inv(Exec(Unbounded, s0, run))
    ensures var s := Exec(Unbounded, s0, run); Sent(s0, run) == s.accepted[..s.prodTail]
  {
    RunKept(s0, run);
    if run != [] {
      var before, a := run[..|run| - 1], run[|run| - 1];
      SentIs(s0, before);
      if a.t < |s0.threads| {
        BatchIsPrefix(s0, before, a.t);
      }
      PutIs(Exec(Unbounded, s0, before), a, Offered(s0, before, a.t));
    }
  }

  /** In every run the counters stay ordered within one capacity, and what callers have received is, in that order, the
      beginning of what callers have put in, none lost and none repeated: both are prefixes of the items by ticket. */
  lemma FifoExactlyOnce(capacity: nat, slots: seq<Item>, threadCount: nat, consumers: Consumers, run: seq<Action>)
    requires capacity > 0 && |slots| == capacity && Disciplined(consumers, threadCount)
    ensures var s0 := Init(capacity, slots, threadCount, consumers);
            var s := Exec(Unbounded, s0, run);
            && s.consTail <= s.consHead <= s.prodTail <= s.prodHead <= s.consTail + s.capacity
            && |s.accepted| == s.prodHead
            && Sent(s0, run) == s.accepted[..s.prodTail]
            && Received(s0, run) == s.accepted[..s.consTail] == Sent(s0, run)[..s.consTail]
  {
    var s0 := Init(capacity, slots, threadCount, consumers);
    SentIs(s0, run);
    ReceivedIs(s0, run);
  }

  /** Every dequeue returns as many items as it says, those of the next tickets. */
  lemma DequeueReturns(s: State, a: Action)
    requires Reachable(s) && a.t < |s.threads| && s.threads[a.t].Deq?
    ensures Shape(s) && Ordered(s)
    ensures var s' := Step(Unbounded, s, a);
            var th := s'.threads[a.t];
            th.Done? ==>
              && th.ret == |th.out| && s'.delivered == s.delivered + th.out
              && s.consTail <= s'.consTail <= |s.accepted| && th.out == s.accepted[s.consTail..s'.consTail]
  {
    ReachableInv(s);
    assert ThreadOk(s, a.t);
  }

  /** Every consumer still inside a call holds tickets that no caller has received and no other consumer
      holds, and what it has copied so far is what was accepted under those tickets. */
  lemma ClaimsAreExclusive(s: State, t: nat, u: nat)
    requires Reachable(s) && t < |s.threads| && u < |s.threads| && t != u
    requires Claiming(s.threads[t]) && Claiming(s.threads[u])
    ensures var a, b := s.threads[t], s.threads[u];
            && |s.delivered| <= a.dhead && a.dhead + a.n <= s.prodTail <= |s.accepted| && |a.buf| <= a.n
            && a.buf == s.accepted[a.dhead..a.dhead + |a.buf|]
            && (a.dhead + a.n <= b.dhead || b.dhead + b.n <= a.dhead)
  {
    ReachableInv(s);
    assert ThreadOk(s, t) && ThreadOk(s, u);
    var a, b := s.threads[t], s.threads[u];
    assert s.consumer[a.dhead] == t && s.consumer[b.dhead] == u;
  }

  /** A producer's write never lands on a slot that holds a published item not yet released, nor on one that
      another producer has filled. */
  lemma NoOverwrite(s: State, t: nat, k: nat, at: nat)
    requires Reachable(s) && t < |s.threads|
    requires s.threads[t].Enq? && s.threads[t].eat.EWrite? && s.threads[t].i < |s.threads[t].objs|
    requires at == s.threads[t].ehead + s.threads[t].i
    requires s.consTail <= k < s.prodHead && k != at
    ensures Shape(s) && k % s.capacity != at % s.capacity
    ensures Slot(EnqStep(Unbounded, s, t, false), k) == Slot(s, k)
  {
    ReservedRange(s, t);
    WriteMisses(s, t, k, at);
  }

  lemma ReservedRange(s: State, t: nat)
    requires Reachable(s) && t < |s.threads| && Reserving(s.threads[t])
    ensures Shape(s) && Ordered(s)
    ensures s.prodTail <= s.threads[t].ehead && s.threads[t].ehead + |s.threads[t].objs| <= s.prodHead
  {
    ReachableInv(s);
    assert ThreadOk(s, t);
  }

  lemma WriteMisses(s: State, t: nat, k: nat, at: nat)
    requires Shape(s) && Ordered(s) && t < |s.threads|
    requires s.threads[t].Enq? && s.threads[t].eat.EWrite? && s.threads[t].i < |s.threads[t].objs|
    requires at == s.threads[t].ehead + s.threads[t].i && s.prodTail <= at < s.prodHead
    requires s.consTail <= k < s.prodHead && k != at
    ensures k % s.capacity != at % s.capacity
    ensures Slot(EnqStep(Unbounded, s, t, false), k) == Slot(s, k)
  {
    SlotUnique(k, at, s.capacity, s.consTail);
  }

  /** enqueue_bulk of a non-empty batch returns 0 at its read of cons.tail exactly when the ring is full at
      that instant and the head it read earlier is still current; otherwise it goes on to reserve. */
  lemma EnqueueRefusalHonest(s: State, t: nat)
    requires Reachable(s) && t < |s.threads| && s.threads[t].Enq? && s.threads[t].eat.ELoadTail?
    requires s.threads[t].objs != []
    ensures var th' := Step(Unbounded, s, Run(t, false)).threads[t];
            && (th' == Done(0, []) <==>
                  s.prodHead == s.consTail + s.capacity && s.threads[t].ehead == s.prodHead)
            && (th' == Done(0, []) || th'.Enq?)
  {
    ReachableInv(s);
    assert ThreadOk(s, t);
  }

  /** dequeue_bulk_mc of at least one item returns 0 at its read of prod.tail exactly when every published
      ticket is claimed at that instant and the head it read earlier is still current. */
  lemma DequeueRefusalHonest(s: State, t: nat)
    requires Reachable(s) && t < |s.threads| && s.threads[t].Deq? && s.threads[t].dat.DLoadTail?
    requires s.threads[t].n > 0
    ensures var th' := Step(Unbounded, s, Run(t, false)).threads[t];
            && (th' == Done(0, []) <==> s.consHead == s.prodTail && s.threads[t].dhead == s.consHead)
            && (th' == Done(0, []) || th'.Deq?)
  {
    ReachableInv(s);
    assert ThreadOk(s, t);
  }

  /** The tail-waiting loops cannot deadlock: while some ticket is reserved but unpublished (claimed but
      unreleased), the thread holding the oldest one can take a step that changes the state. */
  lemma TailWaitsResolve(s: State)
    requires Reachable(s)
    ensures |s.producer| == s.prodHead && |s.consumer| == s.consHead
    ensures s.prodTail < s.prodHead ==>
              s.producer[s.prodTail] < |s.threads| && Step(Unbounded, s, Run(s.producer[s.prodTail], false)) != s
    ensures s.consTail < s.consHead ==>
              s.consumer[s.consTail] < |s.threads| && Step(Unbounded, s, Run(s.consumer[s.consTail], false)) != s
  {
    ReachableInv(s);
    if s.prodTail < s.prodHead {
      var t := s.producer[s.prodTail];
      assert ThreadOk(s, t);
      assert Step(Unbounded, s, Run(t, false)).threads[t] != s.threads[t];
    }
    if s.consTail < s.consHead {
      var t := s.consumer[s.consTail];
      assert ThreadOk(s, t);
      assert Step(Unbounded, s, Run(t, false)).threads[t] != s.threads[t];
    }
  }

  // ---- The ring as an atomic queue ------------------------------------------------------------------------

  /** What a dequeue could take now: published and not claimed. */
  function Waiting(s: State): seq<Item>
    requires Ordered(s)
  {
    s.accepted[s.consHead..s.prodTail]
  }

  /** The step with which an enqueue takes effect: it publishes its whole batch and returns. */
  predicate Publishes(s: State, a: Action) {
    a.Run? && a.t < |s.threads| && s.threads[a.t].Enq? && s.threads[a.t].eat.EStore?
  }

  /** The step with which a dequeue takes effect: the claim of its n items. */
  predicate Claims(s: State, a: Action) {
    a.Run? && a.t < |s.threads| && s.threads[a.t].Deq? &&
    var th := s.threads[a.t];
    th.dat.SStoreHead? || (th.dat.DCas? && !a.spurious && s.consHead == th.dhead)
  }

  lemma StepOrdered(s: State, a: Action)
    requires Inv(s)
    ensures Ordered(Step(Unbounded, s, a))
  {
    StepKept(s, a);
  }

  lemma Split(items: seq<Item>, i: nat, j: nat, k: nat)
    requires i <= j <= k <= |items|
    ensures items[i..k] == items[i..j] + items[j..k]
  {
  }

  lemma PublishAppends(s: State, a: Action)
    requires Inv(s) && Publishes(s, a)
    ensures var s', objs := Step(Unbounded, s, a), s.threads[a.t].objs;
            Ordered(s') && Waiting(s') == Waiting(s) + objs && s'.threads[a.t] == Done(|objs|, [])
  {
    StepOrdered(s, a);
    assert ThreadOk(s, a.t);
    Split(s.accepted, s.consHead, s.prodTail, s.prodTail + |s.threads[a.t].objs|);
  }

  lemma ClaimRemoves(s: State, a: Action)
    requires Inv(s) && Claims(s, a)
    ensures var s', n := Step(Unbounded, s, a), s.threads[a.t].n;
            && Ordered(s') && n <= |Waiting(s)| && Waiting(s') == Waiting(s)[n..]
            && s'.threads[a.t].Deq? && s'.threads[a.t].n == n && s'.threads[a.t].dhead == s.consHead
  {
    StepOrdered(s, a);
    assert ThreadOk(s, a.t);
  }

  lemma OtherStepsLeave(s: State, a: Action)
    requires Inv(s) && !Publishes(s, a) && !Claims(s, a)
    ensures var s' := Step(Unbounded, s, a);
            Ordered(s') && s'.consHead == s.consHead && s'.prodTail == s.prodTail && s.accepted <= s'.accepted
  {
    StepOrdered(s, a);
  }

  /** In every run each step either leaves the queue of waiting items alone, or appends the batch of an enqueue that
      returns with it, or removes from the front the n items a dequeue will return: those under its tickets. */
  lemma ActsAsQueue(s: State, a: Action)
    requires Reachable(s)
    ensures Ordered(s) && Ordered(Step(Unbounded, s, a))
    ensures var q, q', s' := Waiting(s), Waiting(Step(Unbounded, s, a)), Step(Unbounded, s, a);
            if Publishes(s, a) then q' == q + s.threads[a.t].objs && s'.threads[a.t] == Done(|s.threads[a.t].objs|, [])
            else if Claims(s, a) then
              var n, head := s.threads[a.t].n, s.consHead;
              && n <= |q| && q' == q[n..] && q[..n] == s.accepted[head..head + n]
              && s'.threads[a.t].Deq? && s'.threads[a.t].n == n && s'.threads[a.t].dhead == head
            else q' == q
  {
    ReachableInv(s);
    if Publishes(s, a) {
      PublishAppends(s, a);
    } else if Claims(s, a) {
      ClaimRemoves(s, a);
    } else {
      OtherStepsLeave(s, a);
    }
  }

  // ---- The consumer discipline is exactly what is needed ----------------------------------------------

  lemma OneMore(s0: State, run: seq<Action>, a: Action)
    requires Shape(s0)
    ensures Exec(Unbounded, s0, run + [a]) == Step(Unbounded, Exec(Unbounded, s0, run), a)
  {
    assert (run + [a])[..|run|] == run;
  }

  /** A fresh ring in which threads 0 and 1 have got as far as `t0` and `t1` with one item. */
  function Pair(s0: State, slots: seq<Item>, prod: (nat, nat), cons: (nat, nat), t0: Thread, t1: Thread,
                accepted: seq<Item>, out: seq<Item>, takers: seq<nat>): State
    requires |s0.threads| >= 2
  {
    s0.(slots := slots, prodHead := prod.0, prodTail := prod.1, consHead := cons.0, consTail := cons.1,
        threads := s0.threads[0 := t0][1 := t1], accepted := accepted, delivered := out,
        producer := seq(|accepted|, _ => 0), consumer := takers)
  }

  lemma PairThreads(threads: seq<Thread>, t0: Thread, t1: Thread, th: Thread)
    requires |threads| >= 2
    ensures threads[0 := t0][1 := t1][0 := th] == threads[0 := th][1 := t1]
    ensures threads[0 := t0][1 := t1][1 := th] == threads[0 := t0][1 := th]
  {
  }

  /** Thread 0 enqueues `x`: up to the reservation. */
  lemma EnqueueReserves(s0: State, x: Item, run: seq<Action>) returns (run': seq<Action>)
    requires Fresh(s0) && Exec(Unbounded, s0, run) == s0
    ensures Exec(Unbounded, s0, run')
         == Pair(s0, s0.slots, (1, 0), (0, 0), Enq(EWrite, [x], 0, 0), Idle, [x], [], [])
  {
    var a, r := CallEnqueue(0, [x]), Run(0, false);
    var s1 := Pair(s0, s0.slots, (0, 0), (0, 0), Enq(ELoadHead, [x], 0, 0), Idle, [], [], []);
    var s2 := Pair(s0, s0.slots, (0, 0), (0, 0), Enq(ELoadTail, [x], 0, 0), Idle, [], [], []);
    var s3 := Pair(s0, s0.slots, (0, 0), (0, 0), Enq(ECas, [x], 0, 0), Idle, [], [], []);
    assert s0.threads[0 := s1.threads[0]] == s1.threads;
    assert [x][..1] == [x];
    PairThreads(s0.threads, s1.threads[0], Idle, s2.threads[0]);
    PairThreads(s0.threads, s2.threads[0], Idle, s3.threads[0]);
    PairThreads(s0.threads, s3.threads[0], Idle, Enq(EWrite, [x], 0, 0));
    OneMore(s0, run, a);
    OneMore(s0, run + [a], r);
    OneMore(s0, run + [a] + [r], r);
    OneMore(s0, run + [a] + [r] + [r], r);
    run' := run + [a] + [r] + [r] + [r];
    assert Step(Unbounded, s0, a) == s1;
    assert Step(Unbounded, s1, r) == s2;
    assert Step(Unbounded, s2, r) == s3;
    assert s3.producer + seq(1, _ => 0) == seq(1, _ => 0);
  }

  /** ... and from there to its publication. */
  lemma EnqueuePublishes(s0: State, x: Item, run: seq<Action>) returns (run': seq<Action>)
    requires Fresh(s0)
    requires Exec(Unbounded, s0, run)
          == Pair(s0, s0.slots, (1, 0), (0, 0), Enq(EWrite, [x], 0, 0), Idle, [x], [], [])
    ensures Exec(Unbounded, s0, run')
         == Pair(s0, s0.slots[0 := x], (1, 1), (0, 0), Done(1, []), Idle, [x], [], [])
  {
    var r, slots := Run(0, false), s0.slots[0 := x];
    var s4 := Exec(Unbounded, s0, run);
    var s5 := Pair(s0, slots, (1, 0), (0, 0), Enq(EWrite, [x], 0, 1), Idle, [x], [], []);
    var s6 := Pair(s0, slots, (1, 0), (0, 0), Enq(EWait, [x], 0, 1), Idle, [x], [], []);
    var s7 := Pair(s0, slots, (1, 0), (0, 0), Enq(EStore, [x], 0, 1), Idle, [x], [], []);
    PairThreads(s0.threads, s4.threads[0], Idle, s5.threads[0]);
    PairThreads(s0.threads, s5.threads[0], Idle, s6.threads[0]);
    PairThreads(s0.threads, s6.threads[0], Idle, s7.threads[0]);
    PairThreads(s0.threads, s7.threads[0], Idle, Done(1, []));
    OneMore(s0, run, r);
    OneMore(s0, run + [r], r);
    OneMore(s0, run + [r] + [r], r);
    OneMore(s0, run + [r] + [r] + [r], r);
    run' := run + [r] + [r] + [r] + [r];
    ZeroMod(s0.capacity);
    assert Step(Unbounded, s4, r) == s5;
    assert Step(Unbounded, s5, r) == s6;
    assert Step(Unbounded, s6, r) == s7;
  }

  lemma ZeroMod(c: nat)
    requires c > 0
    ensures 0 % c == 0
  {
  }

  /** Thread 0 starts a store-only dequeue and stops before copying. */
  lemma StoreOnlyLoads(s0: State, x: Item, run: seq<Action>) returns (run': seq<Action>)
    requires Fresh(s0)
    requires Exec(Unbounded, s0, run)
          == Pair(s0, s0.slots[0 := x], (1, 1), (0, 0), Done(1, []), Idle, [x], [], [])
    ensures Exec(Unbounded, s0, run')
         == Pair(s0, s0.slots[0 := x], (1, 1), (0, 0), Deq(SCopy, 1, 0, []), Idle, [x], [], [])
  {
    var a, r, slots := CallDequeueSc(0, 1), Run(0, false), s0.slots[0 := x];
    var s1 := Exec(Unbounded, s0, run);
    var s2 := Pair(s0, slots, (1, 1), (0, 0), Deq(SLoadHead, 1, 0, []), Idle, [x], [], []);
    var s3 := Pair(s0, slots, (1, 1), (0, 0), Deq(SLoadTail, 1, 0, []), Idle, [x], [], []);
    PairThreads(s0.threads, s1.threads[0], Idle, s2.threads[0]);
    PairThreads(s0.threads, s2.threads[0], Idle, s3.threads[0]);
    PairThreads(s0.threads, s3.threads[0], Idle, Deq(SCopy, 1, 0, []));
    OneMore(s0, run, a);
    OneMore(s0, run + [a], r);
    OneMore(s0, run + [a] + [r], r);
    run' := run + [a] + [r] + [r];
    assert Step(Unbounded, s1, a) == s2;
    assert Step(Unbounded, s2, r) == s3;
  }

  /** Meanwhile thread 1 claims the item by compare-exchange. */
  lemma CasClaims(s0: State, x: Item, run: seq<Action>) returns (run': seq<Action>)
    requires Fresh(s0)
    requires Exec(Unbounded, s0, run)
          == Pair(s0, s0.slots[0 := x], (1, 1), (0, 0), Deq(SCopy, 1, 0, []), Idle, [x], [], [])
    ensures Exec(Unbounded, s0, run')
         == Pair(s0, s0.slots[0 := x], (1, 1), (1, 0), Deq(SCopy, 1, 0, []), Deq(DCopy, 1, 0, []), [x], [], [1])
  {
    var a, r, slots, sc := CallDequeueMc(1, 1), Run(1, false), s0.slots[0 := x], Deq(SCopy, 1, 0, []);
    var s1 := Exec(Unbounded, s0, run);
    var s2 := Pair(s0, slots, (1, 1), (0, 0), sc, Deq(DLoadHead, 1, 0, []), [x], [], []);
    var s3 := Pair(s0, slots, (1, 1), (0, 0), sc, Deq(DLoadTail, 1, 0, []), [x], [], []);
    var s4 := Pair(s0, slots, (1, 1), (0, 0), sc, Deq(DCas, 1, 0, []), [x], [], []);
    PairThreads(s0.threads, sc, Idle, s2.threads[1]);
    PairThreads(s0.threads, sc, s2.threads[1], s3.threads[1]);
    PairThreads(s0.threads, sc, s3.threads[1], s4.threads[1]);
    PairThreads(s0.threads, sc, s4.threads[1], Deq(DCopy, 1, 0, []));
    OneMore(s0, run, a);
    OneMore(s0, run + [a], r);
    OneMore(s0, run + [a] + [r], r);
    OneMore(s0, run + [a] + [r] + [r], r);
    run' := run + [a] + [r] + [r] + [r];
    assert Step(Unbounded, s1, a) == s2;
    assert Step(Unbounded, s2, r) == s3;
    assert Step(Unbounded, s3, r) == s4;
    assert [] + seq(1, _ => 1) == [1];
  }

  /** ... copies it */
  lemma CasCopies(s0: State, x: Item, run: seq<Action>) returns (run': seq<Action>)
    requires Fresh(s0)
    requires Exec(Unbounded, s0, run)
          == Pair(s0, s0.slots[0 := x], (1, 1), (1, 0), Deq(SCopy, 1, 0, []), Deq(DCopy, 1, 0, []), [x], [], [1])
    ensures Exec(Unbounded, s0, run')
         == Pair(s0, s0.slots[0 := x], (1, 1), (1, 0), Deq(SCopy, 1, 0, []), Deq(DCopy, 1, 0, [x]), [x], [], [1])
  {
    var r := Run(1, false);
    PairThreads(s0.threads, Deq(SCopy, 1, 0, []), Deq(DCopy, 1, 0, []), Deq(DCopy, 1, 0, [x]));
    OneMore(s0, run, r);
    run' := run + [r];
    ZeroMod(s0.capacity);
    assert [] + [x] == [x];
  }

  /** ... and delivers it. */
  lemma CasDelivers(s0: State, x: Item, run: seq<Action>) returns (run': seq<Action>)
    requires Fresh(s0)
    requires Exec(Unbounded, s0, run)
          == Pair(s0, s0.slots[0 := x], (1, 1), (1, 0), Deq(SCopy, 1, 0, []), Deq(DCopy, 1, 0, [x]), [x], [], [1])
    ensures Exec(Unbounded, s0, run')
         == Pair(s0, s0.slots[0 := x], (1, 1), (1, 1), Deq(SCopy, 1, 0, []), Done(1, [x]), [x], [x], [1])
  {
    var r, slots, sc := Run(1, false), s0.slots[0 := x], Deq(SCopy, 1, 0, []);
    var s2 := Exec(Unbounded, s0, run);
    var s3 := Pair(s0, slots, (1, 1), (1, 0), sc, Deq(DWait, 1, 0, [x]), [x], [], [1]);
    var s4 := Pair(s0, slots, (1, 1), (1, 0), sc, Deq(DStore, 1, 0, [x]), [x], [], [1]);
    PairThreads(s0.threads, sc, s2.threads[1], s3.threads[1]);
    PairThreads(s0.threads, sc, s3.threads[1], s4.threads[1]);
    PairThreads(s0.threads, sc, s4.threads[1], Done(1, [x]));
    OneMore(s0, run, r);
    OneMore(s0, run + [r], r);
    OneMore(s0, run + [r] + [r], r);
    run' := run + [r] + [r] + [r];
    assert [] + [x] == [x];
    assert Step(Unbounded, s2, r) == s3;
    assert Step(Unbounded, s3, r) == s4;
  }

  /** Thread 0 goes on with its stale head, copies the item */
  lemma StoreOnlyCopies(s0: State, x: Item, run: seq<Action>) returns (run': seq<Action>)
    requires Fresh(s0)
    requires Exec(Unbounded, s0, run)
          == Pair(s0, s0.slots[0 := x], (1, 1), (1, 1), Deq(SCopy, 1, 0, []), Done(1, [x]), [x], [x], [1])
    ensures Exec(Unbounded, s0, run')
         == Pair(s0, s0.slots[0 := x], (1, 1), (1, 1), Deq(SCopy, 1, 0, [x]), Done(1, [x]), [x], [x], [1])
  {
    var r := Run(0, false);
    PairThreads(s0.threads, Deq(SCopy, 1, 0, []), Done(1, [x]), Deq(SCopy, 1, 0, [x]));
    OneMore(s0, run, r);
    run' := run + [r];
    ZeroMod(s0.capacity);
    assert [] + [x] == [x];
  }

  /** ... and delivers it again. */
  lemma StoreOnlyDelivers(s0: State, x: Item, run: seq<Action>) returns (run': seq<Action>)
    requires Fresh(s0)
    requires Exec(Unbounded, s0, run)
          == Pair(s0, s0.slots[0 := x], (1, 1), (1, 1), Deq(SCopy, 1, 0, [x]), Done(1, [x]), [x], [x], [1])
    ensures Exec(Unbounded, s0, run').accepted == [x] && Exec(Unbounded, s0, run').delivered == [x, x]
  {
    var r, slots, d := Run(0, false), s0.slots[0 := x], Done(1, [x]);
    var s2 := Exec(Unbounded, s0, run);
    var s3 := Pair(s0, slots, (1, 1), (1, 1), Deq(SStoreHead, 1, 0, [x]), d, [x], [x], [1]);
    var s4 := Pair(s0, slots, (1, 1), (1, 1), Deq(SStoreTail, 1, 0, [x]), d, [x], [x], [1, 0]);
    PairThreads(s0.threads, s2.threads[0], d, s3.threads[0]);
    PairThreads(s0.threads, s3.threads[0], d, s4.threads[0]);
    OneMore(s0, run, r);
    OneMore(s0, run + [r], r);
    OneMore(s0, run + [r] + [r], r);
    run' := run + [r] + [r] + [r];
    assert [1] + seq(1, _ => 0) == [1, 0];
    assert Step(Unbounded, s2, r) == s3;
    assert Step(Unbounded, s3, r) == s4;
  }

  /** A new ring with at least two threads and no discipline. */
  predicate Fresh(s0: State) {
    && Shape(s0) && |s0.threads| >= 2
    && s0 == Init(s0.capacity, s0.slots, |s0.threads|, Unchecked)
  }

  /** Without the discipline the property fails for every capacity and every number of threads above one: when the
      store-only dequeue runs beside a compare-exchange dequeue, an item is handed out twice. */
  lemma StoreOnlyBesideCasDeliversTwice(capacity: nat, slots: seq<Item>, threadCount: nat, x: Item)
    returns (run: seq<Action>)
    requires capacity > 0 && |slots| == capacity && threadCount >= 2
    ensures var s0 := Init(capacity, slots, threadCount, Unchecked);
            Exec(Unbounded, s0, run).accepted == [x] && Received(s0, run) == [x, x]
  {
    var s0 := Init(capacity, slots, threadCount, Unchecked);
    run := EnqueueReserves(s0, x, []);
    run := EnqueuePublishes(s0, x, run);
    run := StoreOnlyLoads(s0, x, run);
    run := CasClaims(s0, x, run);
    run := CasCopies(s0, x, run);
    run := CasDelivers(s0, x, run);
    run := StoreOnlyCopies(s0, x, run);
    run := StoreOnlyDelivers(s0, x, run);
    ReceivedIs(s0, run);
  }

  /** What callers have received is a prefix of what was accepted. */
  predicate InOrder(capacity: nat, slots: seq<Item>, threadCount: nat, consumers: Consumers, run: seq<Action>)
    requires capacity > 0 && |slots| == capacity
  {
    var s0 := Init(capacity, slots, threadCount, consumers);
    Received(s0, run) <= Exec(Unbounded, s0, run).accepted
  }

  /** Delivery in ticket order, each item once, holds in all runs exactly when the consumers keep the discipline or
      there are fewer than two threads. */
  lemma InOrderIffDisciplined(capacity: nat, slots: seq<Item>, threadCount: nat, consumers: Consumers)
    requires capacity > 0 && |slots| == capacity
    ensures (forall run :: InOrder(capacity, slots, threadCount, consumers, run))
            <==> Disciplined(consumers, threadCount)
  {
    if !Disciplined(consumers, threadCount) {
      var run := StoreOnlyBesideCasDeliversTwice(capacity, slots, threadCount, 0);
      assert !InOrder(capacity, slots, threadCount, consumers, run);
    } else {
      forall run
        ensures InOrder(capacity, slots, threadCount, consumers, run)
      {
        RunKept(Init(capacity, slots, threadCount, consumers), run);
        ReceivedIs(Init(capacity, slots, threadCount, consumers), run);
      }
    }
  }

  // ---- 64-bit counters ------------------------------------------------------------------------------

  function WrapThread(th: Thread): Thread {
    match th
    case Enq(at, objs, head, i) => Enq(at, objs, head % WORD, i)
    case Deq(at, n, head, buf) => Deq(at, n, head % WORD, buf)
    case _ => th
  }

  /** The same state with every counter and every head a thread remembers cut to 64 bits. */
  function Wrap(s: State): State {
    s.(prodHead := s.prodHead % WORD, prodTail := s.prodTail % WORD,
       consHead := s.consHead % WORD, consTail := s.consTail % WORD,
       threads := seq(|s.threads|, t requires 0 <= t < |s.threads| => WrapThread(s.threads[t])))
  }

  /** No thread between its head load and its compare-exchange has been overtaken by 2^64 tickets less the capacity. */
  predicate NoStall(s: State) {
    forall t :: 0 <= t < |s.threads| ==>
      && (s.threads[t].Enq? && (s.threads[t].eat.ELoadTail? || s.threads[t].eat.ECas?) ==>
            s.capacity + s.prodHead < s.threads[t].ehead + WORD)
      && (s.threads[t].Deq? && (s.threads[t].dat.DLoadTail? || s.threads[t].dat.DCas?) ==>
            s.capacity + s.consHead < s.threads[t].dhead + WORD)
  }

  lemma WrapGoto(s: State, t: nat, th: Thread)
    requires t < |s.threads|
    ensures Wrap(Goto(s, t, th)).threads == Wrap(s).threads[t := WrapThread(th)]
  {
  }

  lemma WrapIndex(capacity: nat, e: nat, head: nat, i: nat)
    requires e <= 63 && capacity == Pow2(e)
    ensures Index(Word64, capacity, Add(Word64, head % WORD, i)) == Index(Unbounded, capacity, Add(Unbounded, head, i))
  {
    WordAdd(head, i);
    WordIndex(e, head + i);
  }

  lemma WrapFree(capacity: nat, tail: nat, head: nat)
    requires head <= capacity + tail < head + WORD
    ensures Sub(Word64, Add(Word64, capacity, tail % WORD), head % WORD)
         == Sub(Unbounded, Add(Unbounded, capacity, tail), head)
  {
    WordAdd(tail, capacity);
    WordSub(capacity + tail, head);
  }

  lemma CapacityFits(e: nat)
    requires e <= 63
    ensures Pow2(e) < WORD
  {
    PowGrows(e, 63);
    WordIsPow2();
  }

  lemma EnqWordRead(s: State, e: nat, t: nat, spurious: bool)
    requires Shape(s) && Ordered(s) && NoStall(s) && e <= 63 && s.capacity == Pow2(e)
    requires t < |s.threads| && s.threads[t].Enq? && EnqOk(s, t)
    requires var at := s.threads[t].eat; at.ELoadHead? || at.ELoadTail? || at.EWrite?
    ensures Wrap(EnqStep(Unbounded, s, t, spurious)) == EnqStep(Word64, Wrap(s), t, spurious)
  {
    var Enq(at, objs, head, i) := s.threads[t];
    WrapGoto(s, t, EnqStep(Unbounded, s, t, spurious).threads[t]);
    CapacityFits(e);
    if at.ELoadTail? {
      WrapFree(s.capacity, s.consTail, head);
    } else if at.EWrite? {
      WrapIndex(s.capacity, e, head, i);
    }
  }

  lemma EnqWordCas(s: State, e: nat, t: nat, spurious: bool)
    requires Shape(s) && Ordered(s) && NoStall(s) && e <= 63 && s.capacity == Pow2(e)
    requires t < |s.threads| && s.threads[t].Enq? && EnqOk(s, t) && s.threads[t].eat.ECas?
    ensures Wrap(EnqStep(Unbounded, s, t, spurious)) == EnqStep(Word64, Wrap(s), t, spurious)
  {
    var Enq(_, objs, head, _) := s.threads[t];
    WrapGoto(s, t, EnqStep(Unbounded, s, t, spurious).threads[t]);
    CapacityFits(e);
    WordAdd(head, |objs|);
    WordEq(s.prodHead, head);
  }

  lemma EnqWordWait(s: State, e: nat, t: nat, spurious: bool)
    requires Shape(s) && Ordered(s) && e <= 63 && s.capacity == Pow2(e)
    requires t < |s.threads| && s.threads[t].Enq? && EnqOk(s, t) && s.threads[t].eat.EWait?
    ensures Wrap(EnqStep(Unbounded, s, t, spurious)) == EnqStep(Word64, Wrap(s), t, spurious)
  {
    WrapGoto(s, t, EnqStep(Unbounded, s, t, spurious).threads[t]);
    CapacityFits(e);
    WordEq(s.prodTail, s.threads[t].ehead);
  }

  lemma EnqWordStore(s: State, t: nat, spurious: bool)
    requires Shape(s) && t < |s.threads| && s.threads[t].Enq? && s.threads[t].eat.EStore?
    ensures Wrap(EnqStep(Unbounded, s, t, spurious)) == EnqStep(Word64, Wrap(s), t, spurious)
  {
    WrapGoto(s, t, EnqStep(Unbounded, s, t, spurious).threads[t]);
    WordAdd(s.threads[t].ehead, |s.threads[t].objs|);
  }

  lemma DeqWordRead(s: State, e: nat, t: nat, spurious: bool)
    requires Shape(s) && Ordered(s) && NoStall(s) && e <= 63 && s.capacity == Pow2(e)
    requires t < |s.threads| && s.threads[t].Deq? && DeqOk(s, t)
    requires var at := s.threads[t].dat;
             at.DLoadHead? || at.SLoadHead? || at.DLoadTail? || at.SLoadTail? || at.DCopy? || at.SCopy?
    ensures Wrap(DeqStep(Unbounded, s, t, spurious)) == DeqStep(Word64, Wrap(s), t, spurious)
  {
    var Deq(at, n, head, buf) := s.threads[t];
    WrapGoto(s, t, DeqStep(Unbounded, s, t, spurious).threads[t]);
    CapacityFits(e);
    if at.DLoadTail? || at.SLoadTail? {
      WordSub(s.prodTail, head);
    } else {
      WrapIndex(s.capacity, e, head, |buf|);
    }
  }

  lemma DeqWordTest(s: State, e: nat, t: nat, spurious: bool)
    requires Shape(s) && Ordered(s) && NoStall(s) && e <= 63 && s.capacity == Pow2(e)
    requires t < |s.threads| && s.threads[t].Deq? && DeqOk(s, t) && (s.threads[t].dat.DCas? || s.threads[t].dat.DWait?)
    ensures Wrap(DeqStep(Unbounded, s, t, spurious)) == DeqStep(Word64, Wrap(s), t, spurious)
  {
    CapacityFits(e);
    if s.threads[t].dat.DCas? {
      WordEq(s.consHead, s.threads[t].dhead);
      DeqWordCas(s, t, spurious);
    } else {
      WordEq(s.consTail, s.threads[t].dhead);
      DeqWordWait(s, t, spurious);
    }
  }

  lemma DeqWordCas(s: State, t: nat, spurious: bool)
    requires Shape(s) && t < |s.threads| && s.threads[t].Deq? && s.threads[t].dat.DCas?
    requires s.consHead == s.threads[t].dhead <==> s.consHead % WORD == s.threads[t].dhead % WORD
    ensures Wrap(DeqStep(Unbounded, s, t, spurious)) == DeqStep(Word64, Wrap(s), t, spurious)
  {
    WrapGoto(s, t, DeqStep(Unbounded, s, t, spurious).threads[t]);
    WordAdd(s.threads[t].dhead, s.threads[t].n);
  }

  lemma DeqWordWait(s: State, t: nat, spurious: bool)
    requires Shape(s) && t < |s.threads| && s.threads[t].Deq? && s.threads[t].dat.DWait?
    requires s.consTail == s.threads[t].dhead <==> s.consTail % WORD == s.threads[t].dhead % WORD
    ensures Wrap(DeqStep(Unbounded, s, t, spurious)) == DeqStep(Word64, Wrap(s), t, spurious)
  {
    WrapGoto(s, t, DeqStep(Unbounded, s, t, spurious).threads[t]);
  }

  lemma DeqWordStore(s: State, t: nat, spurious: bool)
    requires Shape(s) && t < |s.threads| && s.threads[t].Deq?
    requires var at := s.threads[t].dat; at.DStore? || at.SStoreHead? || at.SStoreTail?
    ensures Wrap(DeqStep(Unbounded, s, t, spurious)) == DeqStep(Word64, Wrap(s), t, spurious)
  {
    WrapGoto(s, t, DeqStep(Unbounded, s, t, spurious).threads[t]);
    WordAdd(s.threads[t].dhead, s.threads[t].n);
  }

  lemma WordRun(s: State, e: nat, t: nat, spurious: bool)
    requires Shape(s) && Ordered(s) && NoStall(s) && e <= 63 && s.capacity == Pow2(e)
    requires t < |s.threads| && ThreadOk(s, t)
    ensures Wrap(Step(Unbounded, s, Run(t, spurious))) == Step(Word64, Wrap(s), Run(t, spurious))
  {
    if s.threads[t].Enq? {
      var at := s.threads[t].eat;
      if at.ECas? {
        EnqWordCas(s, e, t, spurious);
      } else if at.EWait? {
        EnqWordWait(s, e, t, spurious);
      } else if at.EStore? {
        EnqWordStore(s, t, spurious);
      } else {
        EnqWordRead(s, e, t, spurious);
      }
    } else if s.threads[t].Deq? {
      var at := s.threads[t].dat;
      if at.DCas? || at.DWait? {
        DeqWordTest(s, e, t, spurious);
      } else if at.DStore? || at.SStoreHead? || at.SStoreTail? {
        DeqWordStore(s, t, spurious);
      } else {
        DeqWordRead(s, e, t, spurious);
      }
    }
  }

  lemma WordStep(s: State, e: nat, a: Action)
    requires Inv(s) && NoStall(s) && e <= 63 && s.capacity == Pow2(e)
    ensures Wrap(Step(Unbounded, s, a)) == Step(Word64, Wrap(s), a)
  {
    if a.t < |s.threads| {
      assert ThreadOk(s, a.t);
      if a.Run? {
        WordRun(s, e, a.t, a.spurious);
      } else {
        WrapGoto(s, a.t, Step(Unbounded, s, a).threads[a.t]);
      }
    }
  }

  /** The run of the ring on 64-bit words is the run on unbounded tickets, seen through the wrap. */
  lemma {:induction false} WordsRefineTickets(e: nat, slots: seq<Item>, threadCount: nat, consumers: Consumers,
                                              run: seq<Action>)
    requires e <= 63 && |slots| == Pow2(e) && Disciplined(consumers, threadCount)
    requires forall m :: 0 <= m < |run| ==>
               NoStall(Exec(Unbounded, Init(Pow2(e), slots, threadCount, consumers), run[..m]))
    ensures var s0 := Init(Pow2(e), slots, threadCount, consumers);
            Exec(Word64, s0, run) == Wrap(Exec(Unbounded, s0, run))
  {
    var s0 := Init(Pow2(e), slots, threadCount, consumers);
    if run == [] {
      assert Wrap(s0).threads == s0.threads;
    } else {
      var m := |run| - 1;
      forall j | 0 <= j < m
        ensures NoStall(Exec(Unbounded, s0, run[..m][..j]))
      {
        assert run[..m][..j] == run[..j];
      }
      WordsRefineTickets(e, slots, threadCount, consumers, run[..m]);
      RunKept(s0, run[..m]);
      WordStep(Exec(Unbounded, s0, run[..m]), e, run[m]);
    }
  }
}
