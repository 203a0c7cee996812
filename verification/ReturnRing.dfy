/** The sequence-number ring inside memory_pool.cc (Vyukov's bounded queue) that carries freed blocks back to the
    allocating side.  One atomic access per step; a run is any sequence of actions of any number of threads. */
module ReturnRing {
  import opened Words

  type Ptr = int

  datatype Cell = Cell(seqNo: nat, data: Ptr)

  datatype EnqAt = EReload | ECheck | ECas | EData | ESeq

  datatype DeqAt = DReload | DCheck | DCas | DData | DSeq

  datatype Thread =
    | Idle
    | Enq(eat: EnqAt, ptr: Ptr, tail: nat)
    | Deq(dat: DeqAt, head: nat, out: Ptr)
    | Done(ok: bool, got: Ptr)

  /** Which ticket a cell serves, and the thread that holds the cell while its data is written or read. */
  datatype Status = Free(k: nat) | Filling(k: nat, t: nat) | Full(k: nat) | Draining(k: nat, t: nat)

  /** History: `status` of each cell, the pointer of every ticket taken by an enqueue, and what each dequeue read. */
  datatype State = State(head: nat, tail: nat, cells: seq<Cell>, threads: seq<Thread>,
                         status: seq<Status>, accepted: seq<Ptr>, taken: map<nat, Ptr>)

  datatype Action = CallEnqueue(t: nat, ptr: Ptr) | CallDequeue(t: nat) | Run(t: nat, spurious: bool)

  predicate Shape(s: State) { |s.cells| > 0 && |s.status| == |s.cells| }

  function At(s: State, k: nat): (c: nat)
    requires Shape(s)
    ensures c < |s.cells|
  {
    k % |s.cells|
  }

  function Goto(s: State, t: nat, th: Thread): State
    requires t < |s.threads|
  {
    s.(threads := s.threads[t := th])
  }

  function SetCell(ar: Arith, s: State, k: nat, cell: Cell, st: Status): State
    requires Shape(s)
  {
    var c := Index(ar, |s.cells|, k);
    s.(cells := s.cells[c := cell], status := s.status[c := st])
  }

  /** The signed difference the code computes: exact on tickets; on words the 64-bit difference read as two's
      complement. */
  function Diff(ar: Arith, x: nat, y: nat): int {
    if ar.Unbounded? then x - y
    else
      var d := (x - y) % WORD;
      if d < HALF then d else d - WORD
  }

  function EnqStep(ar: Arith, s: State, t: nat, spurious: bool): State
    requires Shape(s) && t < |s.threads| && s.threads[t].Enq?
  {
    var Enq(at, ptr, tail) := s.threads[t];
    var c := Index(ar, |s.cells|, tail);
    var cell, diff := s.cells[c], Diff(ar, s.cells[c].seqNo, tail);
    match at
    case EReload => Goto(s, t, Enq(ECheck, ptr, s.tail))
    case ECheck =>
      Goto(s, t, if diff < 0 then Done(false, ptr)
                 else if diff != 0 then Enq(EReload, ptr, tail)
                 else Enq(ECas, ptr, tail))
    case ECas =>
      if spurious || s.tail != tail then Goto(s, t, Enq(ECheck, ptr, s.tail))
      else SetCell(ar, Goto(s, t, Enq(EData, ptr, tail)), tail, cell, Filling(tail, t)).(
        tail := Add(ar, tail, 1), accepted := s.accepted + [ptr])
    case EData => SetCell(ar, Goto(s, t, Enq(ESeq, ptr, tail)), tail, cell.(data := ptr), s.status[c])
    case ESeq => SetCell(ar, Goto(s, t, Done(true, ptr)), tail, cell.(seqNo := Add(ar, tail, 1)), Full(tail))
  }

  function DeqStep(ar: Arith, s: State, t: nat, spurious: bool): State
    requires Shape(s) && t < |s.threads| && s.threads[t].Deq?
  {
    var Deq(at, head, out) := s.threads[t];
    var c := Index(ar, |s.cells|, head);
    var cell, diff := s.cells[c], Diff(ar, s.cells[c].seqNo, Add(ar, head, 1));
    match at
    case DReload => Goto(s, t, Deq(DCheck, s.head, out))
    case DCheck =>
      Goto(s, t, if diff < 0 then Done(false, out)
                 else if diff != 0 then Deq(DReload, head, out)
                 else Deq(DCas, head, out))
    case DCas =>
      if spurious || s.head != head then Goto(s, t, Deq(DCheck, s.head, out))
      else SetCell(ar, Goto(s, t, Deq(DData, head, out)), head, cell, Draining(head, t)).(head := Add(ar, head, 1))
    case DData => Goto(s, t, Deq(DSeq, head, cell.data)).(taken := s.taken[head := cell.data])
    case DSeq =>
      SetCell(ar, Goto(s, t, Done(true, out)), head, cell.(seqNo := Add(ar, head, |s.cells|)), Free(head + |s.cells|))
  }

  function Step(ar: Arith, s: State, a: Action): (s': State)
    requires Shape(s)
    ensures Shape(s') && |s'.threads| == |s.threads| && |s'.cells| == |s.cells|
  {
    if a.t >= |s.threads| then s
    else match s.threads[a.t]
      case Enq(_, _, _) => if a.Run? then EnqStep(ar, s, a.t, a.spurious) else s
      case Deq(_, _, _) => if a.Run? then DeqStep(ar, s, a.t, a.spurious) else s
      case _ =>
        match a
        case CallEnqueue(t, ptr) => Goto(s, t, Enq(ECheck, ptr, s.tail))
        case CallDequeue(t) => Goto(s, t, Deq(DCheck, s.head, 0))
        case Run(_, _) => s
  }

  function Init(capacity: nat, threadCount: nat): (s: State)
    requires capacity > 0
    ensures Shape(s)
  {
    State(0, 0, seq(capacity, (i: nat) => Cell(i, 0)), seq(threadCount, _ => Idle),
          seq(capacity, (i: nat) => Free(i)), [], map[])
  }

  function Exec(ar: Arith, s: State, run: seq<Action>): (s': State)
    requires Shape(s)
    ensures Shape(s') && |s'.threads| == |s.threads| && |s'.cells| == |s.cells|
  {
    if run == [] then s else Step(ar, Exec(ar, s, run[..|run| - 1]), run[|run| - 1])
  }

  // ---- What every run keeps -------------------------------------------------------------------------

  predicate Filler(th: Thread, k: nat) { th.Enq? && (th.eat.EData? || th.eat.ESeq?) && th.tail == k }

  predicate Drainer(th: Thread, k: nat) { th.Deq? && (th.dat.DData? || th.dat.DSeq?) && th.head == k }

  predicate Counters(s: State)
    requires Shape(s)
  {
    s.head <= s.tail <= s.head + |s.cells| && |s.accepted| == s.tail
  }

  /** The sequence number and the counters determine what a cell may be used for. */
  predicate CellOk(s: State, c: nat)
    requires Shape(s) && Counters(s) && c < |s.cells|
  {
    var cell := s.cells[c];
    s.status[c].k % |s.cells| == c &&
    match s.status[c]
    case Free(k) => cell.seqNo == k && s.tail <= k < s.head + |s.cells|
    case Filling(k, t) => cell.seqNo == k && s.head <= k < s.tail && t < |s.threads| && Filler(s.threads[t], k)
    case Full(k) => cell.seqNo == k + 1 && s.head <= k < s.tail && cell.data == s.accepted[k]
    case Draining(k, t) =>
      && cell.seqNo == k + 1 && k < s.head && s.tail <= k + |s.cells| && cell.data == s.accepted[k]
      && t < |s.threads| && Drainer(s.threads[t], k)
  }

  predicate ThreadOk(s: State, t: nat)
    requires Shape(s) && Counters(s) && t < |s.threads|
  {
    match s.threads[t]
    case Enq(at, ptr, tail) =>
      && tail <= s.tail
      && (at.ECas? ==> s.cells[At(s, tail)].seqNo >= tail)
      && (at.EData? || at.ESeq? ==> s.status[At(s, tail)] == Filling(tail, t) && tail < s.tail &&
                                       s.accepted[tail] == ptr)
      && (at.ESeq? ==> s.cells[At(s, tail)].data == ptr)
    case Deq(at, head, out) =>
      && head <= s.head
      && (at.DCas? ==> s.cells[At(s, head)].seqNo >= head + 1)
      && (at.DData? || at.DSeq? ==> s.status[At(s, head)] == Draining(head, t) && head < s.head)
      && (at.DData? ==> head !in s.taken)
      && (at.DSeq? ==> head in s.taken && out == s.accepted[head])
    case _ => true
  }

  /** Ticket `k` is about to be read by the thread that holds its cell. */
  predicate Reading(s: State, k: nat)
    requires Shape(s)
  {
    var st := s.status[At(s, k)];
    st.Draining? && st.t < |s.threads| && s.threads[st.t].Deq? && s.threads[st.t].dat.DData?
    && s.threads[st.t].head == k
  }

  predicate TakenOk(s: State)
    requires Shape(s) && Counters(s)
  {
    && (forall k :: k in s.taken ==> k < s.head && s.taken[k] == s.accepted[k])
    && (forall k :: 0 <= k < s.head && k !in s.taken ==> Reading(s, k))
  }

  predicate Inv(s: State) {
    && Shape(s) && |s.cells| >= 2 && Counters(s) && TakenOk(s)
    && (forall c :: 0 <= c < |s.cells| ==> CellOk(s, c))
    && (forall t :: 0 <= t < |s.threads| ==> ThreadOk(s, t))
  }

  lemma SameSlot(a: nat, b: nat, c: nat, base: nat)
    requires c > 0 && base <= a < base + c && base <= b < base + c && a % c == b % c
    ensures a == b
  {
    if a != b {
      SlotUnique(a, b, c, base);
    }
  }

  lemma NextLap(k: nat, c: nat)
    requires c > 0
    ensures (k + c) % c == k % c
  {
    DivModUnique(k + c, c, k / c + 1, k % c);
  }

  /** At a successful compare-exchange on tail_ the cell is free for exactly that ticket. */
  lemma CasFindsFree(s: State, tail: nat)
    requires Inv(s) && s.tail == tail && s.cells[At(s, tail)].seqNo >= tail
    ensures s.status[At(s, tail)] == Free(tail)
  {
    var c, n := At(s, tail), |s.cells|;
    assert CellOk(s, c);
    var st := s.status[c];
    NextLap(st.k, n);
    match st
    case Free(k) => SameSlot(k, tail, n, tail);
    case Filling(k, t) =>
    case Full(k) => SameSlot(k + n, tail, n, tail);
    case Draining(k, t) => SameSlot(k + n, tail, n, tail);
  }

  lemma CasFindsFull(s: State, head: nat)
    requires Inv(s) && s.head == head && s.cells[At(s, head)].seqNo >= head + 1
    ensures s.status[At(s, head)] == Full(head)
  {
    var c, n := At(s, head), |s.cells|;
    assert CellOk(s, c);
    var st := s.status[c];
    match st
    case Free(k) => SameSlot(k, head, n, head);
    case Filling(k, t) => SameSlot(k, head, n, head);
    case Full(k) => SameSlot(k, head, n, head);
    case Draining(k, t) =>
  }

  /** Thread `t` may move counters and sequence numbers forward, but must leave alone the cells others hold. */
  predicate Respects(s: State, s': State, t: nat)
    requires Shape(s) && Shape(s')
  {
    && |s'.cells| == |s.cells| && |s'.threads| == |s.threads|
    && s.head <= s'.head && s.tail <= s'.tail && s.accepted <= s'.accepted
    && (forall u :: 0 <= u < |s.threads| && u != t ==> s'.threads[u] == s.threads[u])
    && (forall c :: 0 <= c < |s.cells| ==> s.cells[c].seqNo <= s'.cells[c].seqNo)
    && (forall c :: 0 <= c < |s.cells| && (s.status[c].Filling? || s.status[c].Draining?) && s.status[c].t != t ==>
          s'.status[c] == s.status[c] && s'.cells[c] == s.cells[c])
    && (forall k :: k in s.taken ==> k in s'.taken && s'.taken[k] == s.taken[k])
    && (forall k :: k in s'.taken && k !in s.taken ==> s.status[At(s, k)] == Draining(k, t))
  }

  lemma OthersKept(s: State, s': State, t: nat)
    requires Inv(s) && Shape(s') && Counters(s') && Respects(s, s', t)
    ensures forall u :: 0 <= u < |s.threads| && u != t ==> ThreadOk(s', u)
  {
    forall u | 0 <= u < |s.threads| && u != t
      ensures ThreadOk(s', u)
    {
      assert ThreadOk(s, u);
    }
  }

  predicate Holder(th: Thread) {
    (th.Enq? && (th.eat.EData? || th.eat.ESeq?)) || (th.Deq? && (th.dat.DData? || th.dat.DSeq?))
  }

  /** A thread that holds no cell changes only its own record. */
  lemma LocalKept(s: State, t: nat, th: Thread)
    requires Inv(s) && t < |s.threads| && !Holder(s.threads[t]) && !Holder(th) && ThreadOk(Goto(s, t, th), t)
    ensures Inv(Goto(s, t, th))
  {
    var s' := Goto(s, t, th);
    OthersKept(s, s', t);
    forall c | 0 <= c < |s'.cells|
      ensures CellOk(s', c)
    {
      assert CellOk(s, c);
    }
    forall k | 0 <= k < s'.head && k !in s'.taken
      ensures Reading(s', k)
    {
      assert Reading(s, k);
    }
  }

  lemma EnqLocalKept(s: State, t: nat, spurious: bool)
    requires Inv(s) && t < |s.threads| && s.threads[t].Enq?
    requires var th := s.threads[t];
             th.eat.EReload? || th.eat.ECheck? || (th.eat.ECas? && (spurious || s.tail != th.tail))
    ensures Inv(EnqStep(Unbounded, s, t, spurious))
  {
    assert ThreadOk(s, t);
    LocalKept(s, t, EnqStep(Unbounded, s, t, spurious).threads[t]);
  }

  lemma EnqClaimCells(s: State, t: nat)
    requires Inv(s) && t < |s.threads| && s.threads[t].Enq? && s.threads[t].eat.ECas? && s.tail == s.threads[t].tail
    requires s.status[At(s, s.tail)] == Free(s.tail)
    ensures var s' := EnqStep(Unbounded, s, t, false);
            Counters(s') && forall c :: 0 <= c < |s.cells| ==> CellOk(s', c)
  {
    var s' := EnqStep(Unbounded, s, t, false);
    assert CellOk(s, At(s, s.tail));
    forall c | 0 <= c < |s'.cells|
      ensures CellOk(s', c)
    {
      assert CellOk(s, c);
      NextLap(s.status[c].k, |s.cells|);
    }
  }

  lemma EnqClaimKept(s: State, t: nat)
    requires Inv(s) && t < |s.threads| && s.threads[t].Enq?
    requires s.threads[t].eat.ECas? && s.tail == s.threads[t].tail
    ensures Inv(EnqStep(Unbounded, s, t, false))
  {
    assert ThreadOk(s, t);
    CasFindsFree(s, s.tail);
    EnqClaimCells(s, t);
    OthersKept(s, EnqStep(Unbounded, s, t, false), t);
  }

  lemma EnqFillKept(s: State, t: nat, spurious: bool)
    requires Inv(s) && t < |s.threads| && s.threads[t].Enq?
    requires s.threads[t].eat.EData? || s.threads[t].eat.ESeq?
    ensures Inv(EnqStep(Unbounded, s, t, spurious))
  {
    var s' := EnqStep(Unbounded, s, t, spurious);
    assert ThreadOk(s, t);
    assert CellOk(s, At(s, s.threads[t].tail));
    forall c | 0 <= c < |s'.cells|
      ensures CellOk(s', c)
    {
      assert CellOk(s, c);
    }
    OthersKept(s, s', t);
  }

  lemma DeqLocalKept(s: State, t: nat, spurious: bool)
    requires Inv(s) && t < |s.threads| && s.threads[t].Deq?
    requires var th := s.threads[t];
             th.dat.DReload? || th.dat.DCheck? || (th.dat.DCas? && (spurious || s.head != th.head))
    ensures Inv(DeqStep(Unbounded, s, t, spurious))
  {
    assert ThreadOk(s, t);
    LocalKept(s, t, DeqStep(Unbounded, s, t, spurious).threads[t]);
  }

  lemma DeqClaimCells(s: State, t: nat)
    requires Inv(s) && t < |s.threads| && s.threads[t].Deq? && s.threads[t].dat.DCas? && s.head == s.threads[t].head
    requires s.status[At(s, s.head)] == Full(s.head)
    ensures var s' := DeqStep(Unbounded, s, t, false);
            Counters(s') && forall c :: 0 <= c < |s.cells| ==> CellOk(s', c)
  {
    var s' := DeqStep(Unbounded, s, t, false);
    assert CellOk(s, At(s, s.head));
    forall c | 0 <= c < |s'.cells|
      ensures CellOk(s', c)
    {
      assert CellOk(s, c);
    }
  }

  lemma DeqClaimTaken(s: State, t: nat)
    requires Inv(s) && t < |s.threads| && s.threads[t].Deq? && s.threads[t].dat.DCas? && s.head == s.threads[t].head
    requires s.status[At(s, s.head)] == Full(s.head) && Counters(DeqStep(Unbounded, s, t, false))
    ensures TakenOk(DeqStep(Unbounded, s, t, false))
  {
    var s' := DeqStep(Unbounded, s, t, false);
    forall k | 0 <= k < s'.head && k !in s'.taken
      ensures Reading(s', k)
    {
      assert k < s.head ==> Reading(s, k);
    }
  }

  lemma DeqClaimKept(s: State, t: nat)
    requires Inv(s) && t < |s.threads| && s.threads[t].Deq?
    requires s.threads[t].dat.DCas? && s.head == s.threads[t].head
    ensures Inv(DeqStep(Unbounded, s, t, false))
  {
    assert ThreadOk(s, t);
    CasFindsFull(s, s.head);
    DeqClaimCells(s, t);
    DeqClaimTaken(s, t);
    OthersKept(s, DeqStep(Unbounded, s, t, false), t);
  }

  lemma DeqReadKept(s: State, t: nat, spurious: bool)
    requires Inv(s) && t < |s.threads| && s.threads[t].Deq?
    requires s.threads[t].dat.DData?
    ensures Inv(DeqStep(Unbounded, s, t, spurious))
  {
    var s' := DeqStep(Unbounded, s, t, spurious);
    ReadTaken(s, t);
    assert ThreadOk(s, t);
    assert CellOk(s, At(s, s.threads[t].head));
    forall c | 0 <= c < |s'.cells|
      ensures CellOk(s', c)
    {
      assert CellOk(s, c);
    }
    OthersKept(s, s', t);
  }

  lemma DeqReleaseKept(s: State, t: nat, spurious: bool)
    requires Inv(s) && t < |s.threads| && s.threads[t].Deq?
    requires s.threads[t].dat.DSeq?
    ensures Inv(DeqStep(Unbounded, s, t, spurious))
  {
    var s' := DeqStep(Unbounded, s, t, spurious);
    assert ThreadOk(s, t);
    assert CellOk(s, At(s, s.threads[t].head));
    NextLap(s.threads[t].head, |s.cells|);
    ReleaseTaken(s, t);
    forall c | 0 <= c < |s'.cells|
      ensures CellOk(s', c)
    {
      assert CellOk(s, c);
    }
    OthersKept(s, s', t);
  }

  lemma ReadTaken(s: State, t: nat)
    requires Inv(s) && t < |s.threads| && s.threads[t].Deq? && s.threads[t].dat.DData?
    ensures TakenOk(DeqStep(Unbounded, s, t, false))
  {
    var s', head := DeqStep(Unbounded, s, t, false), s.threads[t].head;
    assert ThreadOk(s, t) && CellOk(s, At(s, head));
    forall k | 0 <= k < s'.head && k !in s'.taken
      ensures Reading(s', k)
    {
      assert Reading(s, k);
    }
  }

  lemma ReleaseTaken(s: State, t: nat)
    requires Inv(s) && t < |s.threads| && s.threads[t].Deq? && s.threads[t].dat.DSeq?
    ensures TakenOk(DeqStep(Unbounded, s, t, false))
  {
    assert ThreadOk(s, t);
  }

  lemma StepKept(s: State, a: Action)
    requires Inv(s)
    ensures Inv(Step(Unbounded, s, a))
  {
    if a.t < |s.threads| {
      var th := s.threads[a.t];
      if th.Enq? && a.Run? {
        if th.eat.EData? || th.eat.ESeq? {
          EnqFillKept(s, a.t, a.spurious);
        } else if th.eat.ECas? && !a.spurious && s.tail == th.tail {
          EnqClaimKept(s, a.t);
        } else {
          EnqLocalKept(s, a.t, a.spurious);
        }
      } else if th.Deq? && a.Run? {
        if th.dat.DData? {
          DeqReadKept(s, a.t, a.spurious);
        } else if th.dat.DSeq? {
          DeqReleaseKept(s, a.t, a.spurious);
        } else if th.dat.DCas? && !a.spurious && s.head == th.head {
          DeqClaimKept(s, a.t);
        } else {
          DeqLocalKept(s, a.t, a.spurious);
        }
      } else if !th.Enq? && !th.Deq? {
        CallKept(s, a);
      }
    }
  }

  lemma CallKept(s: State, a: Action)
    requires Inv(s) && a.t < |s.threads| && !s.threads[a.t].Enq? && !s.threads[a.t].Deq?
    ensures Inv(Step(Unbounded, s, a))
  {
    if !a.Run? {
      LocalKept(s, a.t, Step(Unbounded, s, a).threads[a.t]);
    }
  }

  lemma InitInv(capacity: nat, threadCount: nat)
    requires capacity >= 2
    ensures Inv(Init(capacity, threadCount))
  {
    var s := Init(capacity, threadCount);
    forall c | 0 <= c < |s.cells|
      ensures CellOk(s, c)
    {
      DivModUnique(c, capacity, 0, c);
    }
  }

  lemma {:induction false} RunKept(capacity: nat, threadCount: nat, run: seq<Action>)
    requires capacity >= 2
    ensures Inv(Exec(Unbounded, Init(capacity, threadCount), run))
  {
    if run == [] {
      InitInv(capacity, threadCount);
    } else {
      RunKept(capacity, threadCount, run[..|run| - 1]);
      StepKept(Exec(Unbounded, Init(capacity, threadCount), run[..|run| - 1]), run[|run| - 1]);
    }
  }

  ghost predicate Reachable(s: State) {
    exists capacity: nat, threadCount: nat, run: seq<Action> :: Reaches(capacity, threadCount, run, s)
  }

  ghost predicate Reaches(capacity: nat, threadCount: nat, run: seq<Action>, s: State) {
    capacity >= 2 && s == Exec(Unbounded, Init(capacity, threadCount), run)
  }

  lemma ReachableInv(s: State)
    requires Reachable(s)
    ensures Inv(s)
  {
    var capacity: nat, threadCount: nat, run: seq<Action> :| Reaches(capacity, threadCount, run, s);
    RunKept(capacity, threadCount, run);
  }

  // ---- Main results ---------------------------------------------------------------------------------

  predicate Holds(th: Thread, k: nat) { Filler(th, k) || Drainer(th, k) }

  /** Two threads that write or read cell data at the same time never use the same cell. */
  lemma CellIsExclusive(s: State, t: nat, u: nat, j: nat, k: nat)
    requires Reachable(s) && t < |s.threads| && u < |s.threads| && t != u
    requires Holds(s.threads[t], j) && Holds(s.threads[u], k)
    ensures At(s, j) != At(s, k)
  {
    ReachableInv(s);
    assert ThreadOk(s, t) && ThreadOk(s, u);
  }

  /** Which tickets of the slot of an unclaimed ticket `k` are in the window of the two counters. */
  lemma UnclaimedSlot(j: nat, k: nat, n: nat, head: nat, tail: nat)
    requires n > 0 && head <= k < tail <= head + n && j % n == k % n
    ensures head <= j < head + n || (j < head && tail <= j + n) ==> j == k
  {
    if head <= j < head + n {
      SameSlot(j, k, n, head);
    } else if j < head && tail <= j + n {
      SameSlot(j, k, n, if tail >= n then tail - n else 0);
    }
  }

  /** The cell of an unclaimed ticket serves that ticket. */
  lemma UnclaimedIs(s: State, k: nat)
    requires Inv(s) && s.head <= k < s.tail
    ensures var st := s.status[At(s, k)]; (st.Full? || st.Filling?) && st.k == k
    ensures CellOk(s, At(s, k))
  {
    assert CellOk(s, At(s, k));
    UnclaimedSlot(s.status[At(s, k)].k, k, |s.cells|, s.head, s.tail);
  }

  /** Every accepted pointer is dequeued exactly once, by the consumer of the same ticket: what was read under a
      ticket is what was accepted under it, a ticket being read has not been read before, below `head` only tickets
      whose consumer still holds the cell are unread, and from `head` on every pointer is in its cell or being written
      there. */
  lemma EachTicketOnce(s: State, k: nat)
    requires Reachable(s) && k < s.tail
    ensures |s.accepted| == s.tail && s.head <= s.tail <= s.head + |s.cells|
    ensures k in s.taken ==> k < s.head && s.taken[k] == s.accepted[k]
    ensures k < s.head && k !in s.taken ==> exists t :: 0 <= t < |s.threads| && Drainer(s.threads[t], k)
    ensures forall t :: 0 <= t < |s.threads| && s.threads[t].Deq? && s.threads[t].dat.DData? ==>
              s.threads[t].head !in s.taken
    ensures k >= s.head ==>
              || s.cells[At(s, k)] == Cell(k + 1, s.accepted[k])
              || exists t :: 0 <= t < |s.threads| && Filler(s.threads[t], k)
  {
    ReachableInv(s);
    if k >= s.head {
      UnclaimedIs(s, k);
    }
    if k < s.head && k !in s.taken {
      var t := s.status[At(s, k)].t;
      assert ThreadOk(s, t);
      assert CellOk(s, At(s, k));
    }
    forall t | 0 <= t < |s.threads| && s.threads[t].Deq? && s.threads[t].dat.DData?
      ensures s.threads[t].head !in s.taken
    {
      assert ThreadOk(s, t);
    }
  }

  /** A ticket is unreleased while its pointer is being written, waits, or is being read. */
  predicate Unreleased(s: State, k: nat)
    requires Shape(s)
  {
    !s.status[At(s, k)].Free? && s.status[At(s, k)].k == k
  }

  /** "Full" is reported exactly when, at the load of the sequence number, the ticket one capacity earlier has not
      been released, and then the ticket tried is the current tail. */
  lemma FullIsHonest(s: State, t: nat)
    requires Reachable(s) && t < |s.threads| && s.threads[t].Enq? && s.threads[t].eat.ECheck?
    ensures var tail, n := s.threads[t].tail, |s.cells|;
            && (Step(Unbounded, s, Run(t, false)).threads[t].Done? <==> tail >= n && Unreleased(s, tail - n))
            && (Step(Unbounded, s, Run(t, false)).threads[t].Done? ==>
                  Step(Unbounded, s, Run(t, false)).threads[t] == Done(false, s.threads[t].ptr) && s.tail == tail)
  {
    ReachableInv(s);
    assert ThreadOk(s, t);
    var tail, n := s.threads[t].tail, |s.cells|;
    var c := At(s, tail);
    assert CellOk(s, c);
    var k := s.status[c].k;
    NextLap(k, n);
    if tail >= n {
      NextLap(tail - n, n);
    }
    if s.cells[c].seqNo < tail {
      NotBehind(k, tail, n);
    }
  }

  lemma NotBehind(k: nat, tail: nat, n: nat)
    requires n >= 2 && k % n == tail % n && k < tail
    ensures k + n <= tail
  {
    if tail < k + n {
      SlotUnique(k, tail, n, k);
    }
  }

  /** "Empty" is reported exactly when, at the load of the sequence number, the ticket tried is the current head and its
      pointer has not been published: nothing has been accepted beyond it, or its enqueuer is still writing. */
  lemma EmptyIsHonest(s: State, t: nat)
    requires Reachable(s) && t < |s.threads| && s.threads[t].Deq? && s.threads[t].dat.DCheck?
    ensures Step(Unbounded, s, Run(t, false)).threads[t].Done? <==>
              && s.head == s.threads[t].head
              && (s.head == s.tail || s.status[At(s, s.head)].Filling?)
  {
    ReachableInv(s);
    assert ThreadOk(s, t);
    var head, n := s.threads[t].head, |s.cells|;
    var c := At(s, head);
    assert CellOk(s, c);
    var k := s.status[c].k;
    if s.cells[c].seqNo < head + 1 {
      if k < head {
        NotBehind(k, head, n);
      }
    } else if s.head == head {
      SeqAtHead(s);
    }
  }

  /** A sequence number above the head's ticket means its pointer is there. */
  lemma SeqAtHead(s: State)
    requires Inv(s) && s.cells[At(s, s.head)].seqNo >= s.head + 1
    ensures s.head < s.tail && !s.status[At(s, s.head)].Filling?
  {
    CasFindsFull(s, s.head);
    assert CellOk(s, At(s, s.head));
  }

  // ---- 64-bit counters ------------------------------------------------------------------------------

  function WrapThread(th: Thread): Thread {
    match th
    case Enq(at, ptr, tail) => Enq(at, ptr, tail % WORD)
    case Deq(at, head, out) => Deq(at, head % WORD, out)
    case _ => th
  }

  function WrapCell(cell: Cell): Cell { Cell(cell.seqNo % WORD, cell.data) }

  /** `w` is what the code sees of `s`: every counter, sequence number and remembered ticket cut to 64 bits.  History is
      not part of it. */
  predicate Agrees(w: State, s: State) {
    && Shape(w) && |w.cells| == |s.cells| && |w.threads| == |s.threads|
    && w.head == s.head % WORD && w.tail == s.tail % WORD
    && (forall c :: 0 <= c < |s.cells| ==> w.cells[c] == WrapCell(s.cells[c]))
    && (forall t :: 0 <= t < |s.threads| ==> w.threads[t] == WrapThread(s.threads[t]))
  }

  /** No thread between its load of a counter and its compare-exchange has been overtaken by 2^63 tickets less the
      ring's own size. */
  predicate NoStall(s: State) {
    forall t :: 0 <= t < |s.threads| ==>
      && (s.threads[t].Enq? && (s.threads[t].eat.ECheck? || s.threads[t].eat.ECas?) ==>
            s.tail + |s.cells| < s.threads[t].tail + HALF)
      && (s.threads[t].Deq? && (s.threads[t].dat.DCheck? || s.threads[t].dat.DCas?) ==>
            s.head + |s.cells| < s.threads[t].head + HALF)
  }

  /** The two's-complement difference is the true one while that fits in a signed word. */
  lemma WordDiff(x: nat, y: nat)
    requires y <= x + HALF && x < y + HALF
    ensures Diff(Word64, x % WORD, y % WORD) == x - y
  {
  }

  lemma WordDiffNext(x: nat, y: nat)
    requires y + 1 <= x + HALF && x < y + 1 + HALF
    ensures Diff(Word64, x % WORD, Add(Word64, y % WORD, 1)) == x - (y + 1)
  {
    WordAdd(y, 1);
    WordDiff(x, y + 1);
  }

  /** Every sequence number is within one lap of both counters. */
  lemma SeqNear(s: State, c: nat)
    requires Inv(s) && c < |s.cells|
    ensures s.tail <= s.cells[c].seqNo + |s.cells| && s.cells[c].seqNo <= s.head + |s.cells|
  {
    assert CellOk(s, c);
  }

  /** A step that only moves one thread. */
  lemma WordGoto(w: State, s: State, t: nat, th: Thread)
    requires Agrees(w, s) && t < |s.threads|
    ensures Agrees(Goto(w, t, WrapThread(th)), Goto(s, t, th))
  {
  }

  /** A step that also writes one cell. */
  lemma WordSetCell(w: State, s: State, e: nat, k: nat, cell: Cell, st: Status, st': Status)
    requires Agrees(w, s) && Shape(s) && e <= 62 && |s.cells| == Pow2(e)
    ensures Agrees(SetCell(Word64, w, k % WORD, WrapCell(cell), st), SetCell(Unbounded, s, k, cell, st'))
  {
    WordIndex(e, k);
  }

  /** What the check of an enqueue sees. */
  lemma EnqWordDiff(w: State, s: State, e: nat, t: nat)
    requires Agrees(w, s) && Inv(s) && NoStall(s) && e <= 62 && |s.cells| == Pow2(e)
    requires t < |s.threads| && s.threads[t].Enq? && s.threads[t].eat.ECheck?
    ensures var tail := s.threads[t].tail;
            Diff(Word64, w.cells[Index(Word64, |w.cells|, tail % WORD)].seqNo, tail % WORD)
            == s.cells[At(s, tail)].seqNo - tail
  {
    var tail := s.threads[t].tail;
    assert ThreadOk(s, t);
    WordIndex(e, tail);
    SeqNear(s, At(s, tail));
    WordDiff(s.cells[At(s, tail)].seqNo, tail);
  }

  lemma EnqWordCheck(w: State, s: State, e: nat, t: nat, spurious: bool)
    requires Agrees(w, s) && Inv(s) && NoStall(s) && e <= 62 && |s.cells| == Pow2(e)
    requires t < |s.threads| && s.threads[t].Enq? && s.threads[t].eat.ECheck?
    ensures Agrees(EnqStep(Word64, w, t, spurious), EnqStep(Unbounded, s, t, spurious))
  {
    EnqWordDiff(w, s, e, t);
    WordGoto(w, s, t, EnqStep(Unbounded, s, t, spurious).threads[t]);
  }

  lemma EnqWordRetry(w: State, s: State, t: nat, spurious: bool)
    requires Agrees(w, s) && Inv(s) && NoStall(s) && t < |s.threads| && s.threads[t].Enq?
    requires var th := s.threads[t]; th.eat.EReload? || (th.eat.ECas? && (spurious || s.tail != th.tail))
    ensures Agrees(EnqStep(Word64, w, t, spurious), EnqStep(Unbounded, s, t, spurious))
  {
    assert ThreadOk(s, t);
    if s.threads[t].eat.ECas? {
      WordEq(s.tail, s.threads[t].tail);
    }
    WordGoto(w, s, t, EnqStep(Unbounded, s, t, spurious).threads[t]);
  }

  lemma EnqWordClaim(w: State, s: State, e: nat, t: nat)
    requires Agrees(w, s) && Shape(s) && e <= 62 && |s.cells| == Pow2(e)
    requires t < |s.threads| && s.threads[t].Enq? && s.threads[t].eat.ECas? && s.tail == s.threads[t].tail
    ensures Agrees(EnqStep(Word64, w, t, false), EnqStep(Unbounded, s, t, false))
  {
    var Enq(_, ptr, tail) := s.threads[t];
    var th, cell := Enq(EData, ptr, tail), s.cells[At(s, tail)];
    WordIndex(e, tail);
    WordAdd(tail, 1);
    WordGoto(w, s, t, th);
    WordSetCell(Goto(w, t, WrapThread(th)), Goto(s, t, th), e, tail, cell, Filling(tail % WORD, t), Filling(tail, t));
  }

  lemma EnqWordFill(w: State, s: State, e: nat, t: nat, spurious: bool)
    requires Agrees(w, s) && Shape(s) && e <= 62 && |s.cells| == Pow2(e)
    requires t < |s.threads| && s.threads[t].Enq? && (s.threads[t].eat.EData? || s.threads[t].eat.ESeq?)
    ensures Agrees(EnqStep(Word64, w, t, spurious), EnqStep(Unbounded, s, t, spurious))
  {
    var Enq(at, ptr, tail) := s.threads[t];
    var c, cw := At(s, tail), Index(Word64, |w.cells|, tail % WORD);
    WordIndex(e, tail);
    WordAdd(tail, 1);
    var th := if at.EData? then Enq(ESeq, ptr, tail) else Done(true, ptr);
    var cell := if at.EData? then s.cells[c].(data := ptr) else s.cells[c].(seqNo := tail + 1);
    WordGoto(w, s, t, th);
    if at.EData? {
      WordSetCell(Goto(w, t, WrapThread(th)), Goto(s, t, th), e, tail, cell, w.status[cw], s.status[c]);
    } else {
      WordSetCell(Goto(w, t, WrapThread(th)), Goto(s, t, th), e, tail, cell, Full(tail % WORD), Full(tail));
    }
  }

  /** What the check of a dequeue sees. */
  lemma DeqWordDiff(w: State, s: State, e: nat, t: nat)
    requires Agrees(w, s) && Inv(s) && NoStall(s) && e <= 62 && |s.cells| == Pow2(e)
    requires t < |s.threads| && s.threads[t].Deq? && s.threads[t].dat.DCheck?
    ensures var head := s.threads[t].head;
            Diff(Word64, w.cells[Index(Word64, |w.cells|, head % WORD)].seqNo, Add(Word64, head % WORD, 1))
            == s.cells[At(s, head)].seqNo - (head + 1)
  {
    var head := s.threads[t].head;
    assert ThreadOk(s, t);
    WordIndex(e, head);
    SeqNear(s, At(s, head));
    WordDiffNext(s.cells[At(s, head)].seqNo, head);
  }

  lemma DeqWordCheck(w: State, s: State, e: nat, t: nat, spurious: bool)
    requires Agrees(w, s) && Inv(s) && NoStall(s) && e <= 62 && |s.cells| == Pow2(e)
    requires t < |s.threads| && s.threads[t].Deq? && s.threads[t].dat.DCheck?
    ensures Agrees(DeqStep(Word64, w, t, spurious), DeqStep(Unbounded, s, t, spurious))
  {
    DeqWordDiff(w, s, e, t);
    WordGoto(w, s, t, DeqStep(Unbounded, s, t, spurious).threads[t]);
  }

  lemma DeqWordRetry(w: State, s: State, t: nat, spurious: bool)
    requires Agrees(w, s) && Inv(s) && NoStall(s) && t < |s.threads| && s.threads[t].Deq?
    requires var th := s.threads[t]; th.dat.DReload? || (th.dat.DCas? && (spurious || s.head != th.head))
    ensures Agrees(DeqStep(Word64, w, t, spurious), DeqStep(Unbounded, s, t, spurious))
  {
    assert ThreadOk(s, t);
    if s.threads[t].dat.DCas? {
      WordEq(s.head, s.threads[t].head);
    }
    WordGoto(w, s, t, DeqStep(Unbounded, s, t, spurious).threads[t]);
  }

  lemma DeqWordClaim(w: State, s: State, e: nat, t: nat)
    requires Agrees(w, s) && Shape(s) && e <= 62 && |s.cells| == Pow2(e)
    requires t < |s.threads| && s.threads[t].Deq? && s.threads[t].dat.DCas? && s.head == s.threads[t].head
    ensures Agrees(DeqStep(Word64, w, t, false), DeqStep(Unbounded, s, t, false))
  {
    var Deq(_, head, out) := s.threads[t];
    var th, cell := Deq(DData, head, out), s.cells[At(s, head)];
    WordIndex(e, head);
    WordAdd(head, 1);
    WordGoto(w, s, t, th);
    WordSetCell(Goto(w, t, WrapThread(th)), Goto(s, t, th), e, head, cell, Draining(head % WORD, t), Draining(head, t));
  }

  lemma DeqWordRead(w: State, s: State, e: nat, t: nat, spurious: bool)
    requires Agrees(w, s) && Shape(s) && e <= 62 && |s.cells| == Pow2(e)
    requires t < |s.threads| && s.threads[t].Deq? && s.threads[t].dat.DData?
    ensures Agrees(DeqStep(Word64, w, t, spurious), DeqStep(Unbounded, s, t, spurious))
  {
    var head := s.threads[t].head;
    WordIndex(e, head);
    WordGoto(w, s, t, Deq(DSeq, head, s.cells[At(s, head)].data));
  }

  lemma DeqWordRelease(w: State, s: State, e: nat, t: nat, spurious: bool)
    requires Agrees(w, s) && Shape(s) && e <= 62 && |s.cells| == Pow2(e)
    requires t < |s.threads| && s.threads[t].Deq? && s.threads[t].dat.DSeq?
    ensures Agrees(DeqStep(Word64, w, t, spurious), DeqStep(Unbounded, s, t, spurious))
  {
    var Deq(_, head, out) := s.threads[t];
    var n, th := |s.cells|, Done(true, out);
    var cell := Cell(head + n, s.cells[At(s, head)].data);
    assert DeqStep(Word64, w, t, spurious)
        == SetCell(Word64, Goto(w, t, th), head % WORD, WrapCell(cell), Free(head % WORD + n)) by {
      WordIndex(e, head);
      WordAdd(head, n);
    }
    WordGoto(w, s, t, th);
    WordSetCell(Goto(w, t, th), Goto(s, t, th), e, head, cell, Free(head % WORD + n), Free(head + n));
  }

  lemma WordStep(w: State, s: State, e: nat, a: Action)
    requires Agrees(w, s) && Inv(s) && NoStall(s) && e <= 62 && |s.cells| == Pow2(e)
    ensures Agrees(Step(Word64, w, a), Step(Unbounded, s, a))
  {
    if a.t < |s.threads| {
      var th := s.threads[a.t];
      assert w.threads[a.t] == WrapThread(th);
      if th.Enq? {
        if a.Run? {
          if th.eat.EData? || th.eat.ESeq? {
            EnqWordFill(w, s, e, a.t, a.spurious);
          } else if th.eat.ECas? && !a.spurious && s.tail == th.tail {
            EnqWordClaim(w, s, e, a.t);
          } else if th.eat.ECheck? {
            EnqWordCheck(w, s, e, a.t, a.spurious);
          } else {
            EnqWordRetry(w, s, a.t, a.spurious);
          }
        }
      } else if th.Deq? {
        if a.Run? {
          if th.dat.DData? {
            DeqWordRead(w, s, e, a.t, a.spurious);
          } else if th.dat.DSeq? {
            DeqWordRelease(w, s, e, a.t, a.spurious);
          } else if th.dat.DCas? && !a.spurious && s.head == th.head {
            DeqWordClaim(w, s, e, a.t);
          } else if th.dat.DCheck? {
            DeqWordCheck(w, s, e, a.t, a.spurious);
          } else {
            DeqWordRetry(w, s, a.t, a.spurious);
          }
        }
      } else if !a.Run? {
        WordGoto(w, s, a.t, Step(Unbounded, s, a).threads[a.t]);
      }
    }
  }

  /** The ring on 64-bit words, with its masked index and its signed difference, does on every run what the ring on
      unbounded tickets does, for every power-of-two capacity from two on. */
  lemma {:induction false} WordsRefineTickets(e: nat, threadCount: nat, run: seq<Action>)
    requires 1 <= e <= 62
    requires forall m :: 0 <= m < |run| ==> NoStall(Exec(Unbounded, Init(Pow2(e), threadCount), run[..m]))
    ensures Agrees(Exec(Word64, Init(Pow2(e), threadCount), run), Exec(Unbounded, Init(Pow2(e), threadCount), run))
  {
    var s0 := Init(Pow2(e), threadCount);
    if run == [] {
      PowGrows(e, 63);
      HalfIsPow2();
    } else {
      var m := |run| - 1;
      forall j | 0 <= j < m
        ensures NoStall(Exec(Unbounded, s0, run[..m][..j]))
      {
        assert run[..m][..j] == run[..j];
      }
      WordsRefineTickets(e, threadCount, run[..m]);
      PowGrows(1, e);
      RunKept(Pow2(e), threadCount, run[..m]);
      WordStep(Exec(Word64, s0, run[..m]), Exec(Unbounded, s0, run[..m]), e, run[m]);
    }
  }

  // ---- One cell is too few -----------------------------------------------------------------------------

  lemma OneMore(s0: State, run: seq<Action>, a: Action)
    requires Shape(s0)
    ensures Exec(Unbounded, s0, run + [a]) == Step(Unbounded, Exec(Unbounded, s0, run), a)
  {
    assert (run + [a])[..|run|] == run;
  }

  /** Thread 0 is between calls and the only cell carries the number of the next ticket. */
  predicate Inviting(s: State) {
    && |s.cells| == |s.status| == 1 && |s.threads| > 0 && !s.threads[0].Enq? && !s.threads[0].Deq?
    && s.cells[0].seqNo == s.tail
  }

  lemma OneIndex(x: nat)
    ensures Index(Unbounded, 1, x) == 0
  {
  }

  /** Thread 0 claims the cell. */
  lemma ClaimOneCell(s0: State, run: seq<Action>, ptr: Ptr) returns (run': seq<Action>)
    requires Shape(s0) && Inviting(Exec(Unbounded, s0, run))
    ensures var s, s' := Exec(Unbounded, s0, run), Exec(Unbounded, s0, run');
            && s'.threads == s.threads[0 := Enq(EData, ptr, s.tail)] && s'.cells == s.cells && |s'.status| == 1
            && s'.tail == s.tail + 1 && s'.head == s.head && s'.accepted == s.accepted + [ptr] && s'.taken == s.taken
  {
    var a, r := CallEnqueue(0, ptr), Run(0, false);
    OneMore(s0, run, a);
    OneMore(s0, run + [a], r);
    OneMore(s0, run + [a] + [r], r);
    run' := run + [a] + [r] + [r];
    var s := Exec(Unbounded, s0, run);
    var s1 := Step(Unbounded, s, a);
    assert s1.threads[0] == Enq(ECheck, ptr, s.tail);
    var s2 := Step(Unbounded, s1, r);
    assert s2.threads[0] == Enq(ECas, ptr, s.tail);
  }

  /** ... writes the pointer */
  lemma WriteOneCell(s: State, ptr: Ptr)
    requires |s.cells| == |s.status| == 1 && s.tail > 0 && |s.threads| > 0 &&
             s.threads[0] == Enq(EData, ptr, s.tail - 1)
    ensures var s' := Step(Unbounded, s, Run(0, false));
            s' == s.(threads := s.threads[0 := Enq(ESeq, ptr, s.tail - 1)], cells := [Cell(s.cells[0].seqNo, ptr)])
  {
    OneIndex(s.tail - 1);
  }

  /** ... and publishes it. */
  lemma PublishOneCell(s: State, ptr: Ptr)
    requires |s.cells| == |s.status| == 1 && s.tail > 0 && |s.threads| > 0 && s.threads[0] == Enq(ESeq, ptr, s.tail - 1)
    requires s.cells[0].data == ptr
    ensures var s' := Step(Unbounded, s, Run(0, false));
            && s'.threads == s.threads[0 := Done(true, ptr)] && s'.cells == [Cell(s.tail, ptr)] && |s'.status| == 1
            && s'.tail == s.tail && s'.head == s.head && s'.accepted == s.accepted && s'.taken == s.taken
  {
    OneIndex(s.tail - 1);
  }

  /** Filling the cell leaves it inviting again. */
  lemma FillOneCell(s0: State, run: seq<Action>, ptr: Ptr) returns (run': seq<Action>)
    requires Shape(s0)
    requires var s := Exec(Unbounded, s0, run);
             |s.cells| == |s.status| == 1 && s.tail > 0 && |s.threads| > 0 &&
             s.threads[0] == Enq(EData, ptr, s.tail - 1)
    ensures var s, s' := Exec(Unbounded, s0, run), Exec(Unbounded, s0, run');
            && Inviting(s') && s'.cells == [Cell(s.tail, ptr)]
            && s'.tail == s.tail && s'.head == s.head && s'.accepted == s.accepted && s'.taken == s.taken
  {
    var r := Run(0, false);
    OneMore(s0, run, r);
    OneMore(s0, run + [r], r);
    run' := run + [r] + [r];
    WriteOneCell(Exec(Unbounded, s0, run), ptr);
    PublishOneCell(Exec(Unbounded, s0, run + [r]), ptr);
  }

  /** With one cell, "released" and "filled" carry the same sequence number: a second enqueue is accepted while the
      first pointer still waits, and overwrites it. */
  lemma OneCellOverwrites(threadCount: nat, a: Ptr, b: Ptr) returns (run: seq<Action>)
    requires threadCount > 0
    ensures var s := Exec(Unbounded, Init(1, threadCount), run);
            s.accepted == [a, b] && s.head == 0 && s.tail == 2 && s.taken == map[] && s.cells == [Cell(2, b)]
  {
    var s0 := Init(1, threadCount);
    run := ClaimOneCell(s0, [], a);
    run := FillOneCell(s0, run, a);
    run := ClaimOneCell(s0, run, b);
    run := FillOneCell(s0, run, b);
  }

  /** No more pointers have been accepted and not yet claimed than there are cells. */
  predicate WithinCapacity(capacity: nat, threadCount: nat, run: seq<Action>)
    requires capacity > 0
  {
    var s := Exec(Unbounded, Init(capacity, threadCount), run);
    s.tail <= s.head + capacity
  }

  /** The ring stays within its capacity in all runs exactly when it has at least two cells (or nobody to use it). */
  lemma WithinCapacityIff(capacity: nat, threadCount: nat)
    requires capacity > 0
    ensures (forall run :: WithinCapacity(capacity, threadCount, run)) <==> capacity >= 2 || threadCount == 0
  {
    if capacity >= 2 {
      forall run
        ensures WithinCapacity(capacity, threadCount, run)
      {
        RunKept(capacity, threadCount, run);
      }
    } else if threadCount == 0 {
      forall run
        ensures WithinCapacity(capacity, threadCount, run)
      {
        NobodyMoves(capacity, run);
      }
    } else {
      var run := OneCellOverwrites(threadCount, 0, 1);
      assert !WithinCapacity(capacity, threadCount, run);
    }
  }

  lemma {:induction false} NobodyMoves(capacity: nat, run: seq<Action>)
    requires capacity > 0
    ensures Exec(Unbounded, Init(capacity, 0), run) == Init(capacity, 0)
  {
    if run != [] {
      NobodyMoves(capacity, run[..|run| - 1]);
    }
  }
}
