/** The pool's ring of memory_pool.cc as a queue: with which step each call takes effect, what a call returns, and what
    undisturbed calls do. */
module ReturnRingCalls {
  import opened Words
  import opened ReturnRing

  /** Accepted and not claimed by a dequeue. */
  function Waiting(s: State): seq<Ptr>
    requires s.head <= s.tail == |s.accepted|
  {
    s.accepted[s.head..]
  }

  predicate InCall(th: Thread) { th.Enq? || th.Deq? }

  /** The step with which an enqueue is accepted. */
  predicate Accepts(s: State, a: Action) {
    a.Run? && !a.spurious && a.t < |s.threads| && s.threads[a.t].Enq? && s.threads[a.t].eat.ECas?
    && s.tail == s.threads[a.t].tail
  }

  /** The step with which a dequeue claims its pointer. */
  predicate Claims(s: State, a: Action) {
    a.Run? && !a.spurious && a.t < |s.threads| && s.threads[a.t].Deq? && s.threads[a.t].dat.DCas?
    && s.head == s.threads[a.t].head
  }

  lemma StaysCounted(s: State, a: Action)
    requires Inv(s)
    ensures Counters(Step(Unbounded, s, a))
  {
    StepKept(s, a);
  }

  lemma AcceptAppends(s: State, a: Action)
    requires Inv(s) && Accepts(s, a)
    ensures var s' := Step(Unbounded, s, a);
            s'.accepted == s.accepted + [s.threads[a.t].ptr] && s'.head == s.head && s'.threads[a.t].Enq?
  {
  }

  lemma ClaimRemoves(s: State, a: Action)
    requires Inv(s) && Claims(s, a)
    ensures var s' := Step(Unbounded, s, a);
            s'.accepted == s.accepted && s'.head == s.head + 1 && Drainer(s'.threads[a.t], s.head)
  {
  }

  lemma OtherStepsLeave(s: State, a: Action)
    requires Inv(s) && !Accepts(s, a) && !Claims(s, a)
    ensures var s' := Step(Unbounded, s, a); s'.accepted == s.accepted && s'.head == s.head
  {
  }

  /** In every run each step leaves the waiting pointers alone, or appends the argument of an enqueue, or takes the
      first for a dequeue, which then holds its ticket. */
  lemma ActsAsQueue(s: State, a: Action)
    requires Reachable(s)
    ensures Shape(s) && Counters(s) && Counters(Step(Unbounded, s, a))
    ensures var s', q := Step(Unbounded, s, a), Waiting(s);
            if Accepts(s, a) then Waiting(s') == q + [s.threads[a.t].ptr]
            else if Claims(s, a) then
              q != [] && Waiting(s') == q[1..] && q[0] == s.accepted[s.head] && Drainer(s'.threads[a.t], s.head)
            else Waiting(s') == q
  {
    ReachableInv(s);
    StaysCounted(s, a);
    if Accepts(s, a) {
      AcceptAppends(s, a);
    } else if Claims(s, a) {
      ClaimRemoves(s, a);
    } else {
      OtherStepsLeave(s, a);
    }
  }

  /** What calls return: a successful enqueue its own pointer, accepted under its ticket; a successful dequeue the
      pointer accepted under its ticket. */
  lemma CallReturns(s: State, a: Action)
    requires Reachable(s) && a.t < |s.threads| && InCall(s.threads[a.t])
    ensures Shape(s) && Counters(s)
    ensures var th, th' := s.threads[a.t], Step(Unbounded, s, a).threads[a.t];
            && (th.Enq? && th'.Done? ==>
                  th'.got == th.ptr && (th'.ok ==> th.tail < s.tail && s.accepted[th.tail] == th.ptr))
            && (th.Deq? && th'.Done? && th'.ok ==>
                  && th.head < s.head && th'.got == s.accepted[th.head]
                  && th.head in s.taken && s.taken[th.head] == th'.got)
  {
    ReachableInv(s);
    assert ThreadOk(s, a.t);
  }

  // ---- Calls that run alone ----------------------------------------------------------------------------------

  /** Nobody is between a claim and the release of a cell. */
  predicate Quiet(s: State) { forall u :: 0 <= u < |s.threads| ==> !Holder(s.threads[u]) }

  /** A call with the next four steps of its thread. */
  function Alone(s: State, call: Action): State
    requires Shape(s)
  {
    var r := Run(call.t, false);
    Step(Unbounded, Step(Unbounded, Step(Unbounded, Step(Unbounded, Step(Unbounded, s, call), r), r), r), r)
  }

  /** In a quiet ring the cell of the tail is free exactly while fewer pointers wait than there are cells. */
  lemma QuietTail(s: State)
    requires Inv(s) && Quiet(s)
    ensures var st, n := s.status[At(s, s.tail)], |s.cells|;
            if s.tail < s.head + n then st == Free(s.tail) else st.Full? && st.k + n == s.tail
    ensures CellOk(s, At(s, s.tail))
  {
    var c, n := At(s, s.tail), |s.cells|;
    assert CellOk(s, c);
    var st := s.status[c];
    NextLap(st.k, n);
    match st
    case Free(k) => SameSlot(k, s.tail, n, s.tail);
    case Full(k) => SameSlot(k + n, s.tail, n, s.tail);
    case Filling(_, _) =>
    case Draining(_, _) =>
  }

  lemma QuietHead(s: State)
    requires Inv(s) && Quiet(s)
    ensures var st := s.status[At(s, s.head)];
            if s.head < s.tail then st == Full(s.head) else st == Free(s.head)
    ensures CellOk(s, At(s, s.head))
  {
    var c, n := At(s, s.head), |s.cells|;
    assert CellOk(s, c);
    var st := s.status[c];
    match st
    case Free(k) => SameSlot(k, s.head, n, s.head);
    case Full(k) => SameSlot(k, s.head, n, s.head);
    case Filling(_, _) =>
    case Draining(_, _) =>
  }

  /** What an accepted enqueue leaves behind. */
  function Filled(s: State, t: nat, ptr: Ptr): State
    requires Shape(s) && t < |s.threads|
  {
    var c := At(s, s.tail);
    Goto(s, t, Done(true, ptr)).(
      cells := s.cells[c := Cell(s.tail + 1, ptr)], status := s.status[c := Full(s.tail)],
      tail := s.tail + 1, accepted := s.accepted + [ptr])
  }

  lemma EnqueueSteps(s: State, t: nat, ptr: Ptr)
    requires Shape(s) && t < |s.threads| && !InCall(s.threads[t]) && s.cells[At(s, s.tail)].seqNo == s.tail
    ensures Alone(s, CallEnqueue(t, ptr)) == Filled(s, t, ptr)
  {
    var r, c, k := Run(t, false), At(s, s.tail), s.tail;
    var s1 := Goto(s, t, Enq(ECas, ptr, k));
    var s2 := Goto(s, t, Enq(EData, ptr, k)).(
      status := s.status[c := Filling(k, t)], tail := k + 1, accepted := s.accepted + [ptr]);
    var s3 := s2.(threads := s.threads[t := Enq(ESeq, ptr, k)], cells := s.cells[c := Cell(k, ptr)]);
    assert Step(Unbounded, Step(Unbounded, s, CallEnqueue(t, ptr)), r) == s1;
    assert s.cells[c := s.cells[c]] == s.cells;
    assert Step(Unbounded, s1, r) == s2;
    assert s2.status[c := s2.status[c]] == s2.status;
    assert Step(Unbounded, s2, r) == s3;
    assert s3.cells[c := Cell(k + 1, ptr)] == s.cells[c := Cell(k + 1, ptr)];
    assert s3.status[c := Full(k)] == s.status[c := Full(k)];
  }

  lemma FullStep(s: State, t: nat, ptr: Ptr)
    requires Shape(s) && t < |s.threads| && !InCall(s.threads[t]) && s.cells[At(s, s.tail)].seqNo < s.tail
    ensures Alone(s, CallEnqueue(t, ptr)) == Goto(s, t, Done(false, ptr))
  {
    var r, s1 := Run(t, false), Goto(s, t, Done(false, ptr));
    assert Step(Unbounded, Step(Unbounded, s, CallEnqueue(t, ptr)), r) == s1;
    assert Step(Unbounded, s1, r) == s1;
  }

  /** An undisturbed enqueue on a quiet ring is accepted exactly if fewer pointers wait than there are cells, and then
      its pointer is the last. */
  lemma EnqueueAlone(s: State, t: nat, ptr: Ptr)
    requires Reachable(s) && Quiet(s) && t < |s.threads| && !InCall(s.threads[t])
    ensures Shape(s) && Counters(s)
    ensures var s' := Alone(s, CallEnqueue(t, ptr));
            if |Waiting(s)| < |s.cells| then
              s' == Filled(s, t, ptr) && Waiting(s') == Waiting(s) + [ptr] && Quiet(s')
            else s' == Goto(s, t, Done(false, ptr))
  {
    ReachableInv(s);
    QuietTail(s);
    if |Waiting(s)| < |s.cells| {
      EnqueueSteps(s, t, ptr);
    } else {
      FullStep(s, t, ptr);
    }
  }

  /** What a successful dequeue leaves behind. */
  function Emptied(s: State, t: nat): State
    requires Shape(s) && t < |s.threads|
  {
    var c := At(s, s.head);
    Goto(s, t, Done(true, s.cells[c].data)).(
      cells := s.cells[c := Cell(s.head + |s.cells|, s.cells[c].data)],
      status := s.status[c := Free(s.head + |s.cells|)],
      head := s.head + 1, taken := s.taken[s.head := s.cells[c].data])
  }

  lemma DequeueSteps(s: State, t: nat)
    requires Shape(s) && t < |s.threads| && !InCall(s.threads[t]) && s.cells[At(s, s.head)].seqNo == s.head + 1
    ensures Alone(s, CallDequeue(t)) == Emptied(s, t)
  {
    var r, c, k, n := Run(t, false), At(s, s.head), s.head, |s.cells|;
    var x := s.cells[c].data;
    var s1 := Goto(s, t, Deq(DCas, k, 0));
    var s2 := Goto(s, t, Deq(DData, k, 0)).(status := s.status[c := Draining(k, t)], head := k + 1);
    var s3 := s2.(threads := s.threads[t := Deq(DSeq, k, x)], taken := s.taken[k := x]);
    assert Step(Unbounded, Step(Unbounded, s, CallDequeue(t)), r) == s1;
    assert s.cells[c := s.cells[c]] == s.cells;
    assert Step(Unbounded, s1, r) == s2;
    assert Step(Unbounded, s2, r) == s3;
    assert s3.status[c := Free(k + n)] == s.status[c := Free(k + n)];
  }

  lemma EmptyStep(s: State, t: nat)
    requires Shape(s) && t < |s.threads| && !InCall(s.threads[t]) && s.cells[At(s, s.head)].seqNo < s.head + 1
    ensures Alone(s, CallDequeue(t)) == Goto(s, t, Done(false, 0))
  {
    var r, s1 := Run(t, false), Goto(s, t, Done(false, 0));
    assert Step(Unbounded, Step(Unbounded, s, CallDequeue(t)), r) == s1;
    assert Step(Unbounded, s1, r) == s1;
  }

  /** An undisturbed dequeue on a quiet ring returns the first waiting pointer, if there is one. */
  lemma DequeueAlone(s: State, t: nat)
    requires Reachable(s) && Quiet(s) && t < |s.threads| && !InCall(s.threads[t])
    ensures Shape(s) && Counters(s)
    ensures var s', q := Alone(s, CallDequeue(t)), Waiting(s);
            if q != [] then
              s' == Emptied(s, t) && s'.threads[t] == Done(true, q[0]) && Waiting(s') == q[1..] && Quiet(s')
            else s' == Goto(s, t, Done(false, 0))
  {
    ReachableInv(s);
    QuietHead(s);
    if Waiting(s) != [] {
      DequeueSteps(s, t);
    } else {
      EmptyStep(s, t);
    }
  }
}
