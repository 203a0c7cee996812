/** Calls on the ring of mpmc_ring.h that nobody disturbs: from every reachable state in which no other call is half
    done on the same side, a call does exactly what it does on a bounded sequential queue. */
module MpmcRingAlone {
  import opened Words
  import opened MpmcRing

  // ---- Steps of one thread -----------------------------------------------------------------------------------

  predicate Link(p: seq<State>, i: nat, t: nat)
    requires i + 1 < |p|
  {
    Shape(p[i]) && p[i + 1] == Step(Unbounded, p[i], Run(t, false))
  }

  /** The states that thread t passes through from a to b when only it makes steps. */
  predicate Path(p: seq<State>, t: nat, a: State, b: State) {
    p != [] && p[0] == a && p[|p| - 1] == b && forall i {:trigger Link(p, i, t)} :: 0 <= i < |p| - 1 ==> Link(p, i, t)
  }

  lemma OneStep(t: nat, a: State, b: State) returns (p: seq<State>)
    requires Shape(a) && b == Step(Unbounded, a, Run(t, false))
    ensures Path(p, t, a, b)
  {
    p := [a, b];
    assert Link(p, 0, t);
  }

  lemma Join(p: seq<State>, q: seq<State>, t: nat, a: State, b: State, c: State) returns (r: seq<State>)
    requires Path(p, t, a, b) && Path(q, t, b, c)
    ensures Path(r, t, a, c)
  {
    r := p + q[1..];
    forall i | 0 <= i < |r| - 1
      ensures Link(r, i, t)
    {
      if i < |p| - 1 {
        assert Link(p, i, t);
      } else {
        assert Link(q, i - (|p| - 1), t);
      }
    }
  }

  /** A call of thread t followed by steps of that thread only. */
  predicate Alone(run: seq<Action>, call: Action) {
    run != [] && run[0] == call && forall i :: 1 <= i < |run| ==> run[i] == Run(call.t, false)
  }

  lemma {:induction false} PathRuns(s: State, call: Action, p: seq<State>, b: State) returns (run: seq<Action>)
    requires Shape(s) && Path(p, call.t, Step(Unbounded, s, call), b)
    ensures Alone(run, call) && Exec(Unbounded, s, run) == b
    decreases |p|
  {
    var m := |p| - 1;
    if m == 0 {
      run := [call];
      assert run[..0] == [] && Exec(Unbounded, s, []) == s;
    } else {
      forall i | 0 <= i < m - 1
        ensures Link(p[..m], i, call.t)
      {
        assert Link(p, i, call.t);
      }
      run := PathRuns(s, call, p[..m], p[m - 1]);
      assert Link(p, m - 1, call.t);
      OneMore(s, run, Run(call.t, false));
      run := run + [Run(call.t, false)];
    }
  }

  lemma StaysOrdered(s: State, run: seq<Action>)
    requires Inv(s)
    ensures Ordered(Exec(Unbounded, s, run))
  {
    RunKept(s, run);
  }

  // ---- Enqueue ---------------------------------------------------------------------------------------------

  /** How many slots are neither reserved nor unreleased. */
  function Free(s: State): nat
    requires Ordered(s)
  {
    s.capacity - (s.prodHead - s.consTail)
  }

  /** At its second load an enqueue with a current head is granted as many slots as there are, up to its request. */
  lemma GrantIsMin(s: State, t: nat, spurious: bool)
    requires Reachable(s) && t < |s.threads| && s.threads[t].Enq? && s.threads[t].eat.ELoadTail?
    ensures Shape(s) && Ordered(s)
    ensures var th, th' := s.threads[t], Step(Unbounded, s, Run(t, spurious)).threads[t];
            th.ehead == s.prodHead ==>
              if Min(|th.objs|, Free(s)) == 0 then th' == Done(0, [])
              else th'.Enq? && th'.objs == th.objs[..Min(|th.objs|, Free(s))]
  {
    ReachableInv(s);
  }

  /** A reservation of `objs` in state s, of which nothing has been written. */
  function Reserved(s: State, t: nat, objs: seq<Item>): State
    requires t < |s.threads|
  {
    Goto(s, t, Enq(EWrite, objs, s.prodHead, 0)).(
      prodHead := s.prodHead + |objs|, accepted := s.accepted + objs, producer := s.producer + seq(|objs|, _ => t))
  }

  lemma ReserveAlone(s: State, t: nat, objs: seq<Item>) returns (p: seq<State>)
    requires Shape(s) && Ordered(s) && t < |s.threads| && !InCall(s.threads[t])
    ensures var n := Min(|objs|, Free(s));
            Path(p, t, Step(Unbounded, s, CallEnqueue(t, objs)),
                 if n == 0 then Goto(s, t, Done(0, [])) else Reserved(s, t, objs[..n]))
  {
    var n, s1 := Min(|objs|, Free(s)), Step(Unbounded, s, CallEnqueue(t, objs));
    var s2 := Goto(s, t, Enq(ELoadTail, objs, s.prodHead, 0));
    var s3 := Goto(s, t, if n == 0 then Done(0, []) else Enq(ECas, objs[..n], s.prodHead, 0));
    p := OneStep(t, s1, s2);
    var q := OneStep(t, s2, s3);
    p := Join(p, q, t, s1, s2, s3);
    if n > 0 {
      q := CasAlone(s, t, objs[..n]);
      p := Join(p, q, t, s1, s3, Reserved(s, t, objs[..n]));
    }
  }

  lemma CasAlone(s: State, t: nat, objs: seq<Item>) returns (p: seq<State>)
    requires Shape(s) && t < |s.threads|
    ensures Path(p, t, Goto(s, t, Enq(ECas, objs, s.prodHead, 0)), Reserved(s, t, objs))
  {
    p := OneStep(t, Goto(s, t, Enq(ECas, objs, s.prodHead, 0)), Reserved(s, t, objs));
  }

  /** The writing loop touches only slots. */
  lemma {:induction false} WriteAlone(s: State, t: nat) returns (p: seq<State>, slots: seq<Item>)
    requires Shape(s) && t < |s.threads| && s.threads[t].Enq? && s.threads[t].eat.EWrite?
    requires s.threads[t].i <= |s.threads[t].objs|
    ensures |slots| == s.capacity
    ensures var th := s.threads[t];
            Path(p, t, s, Goto(s, t, Enq(EWait, th.objs, th.ehead, |th.objs|)).(slots := slots))
    decreases |s.threads[t].objs| - s.threads[t].i
  {
    var th, s1 := s.threads[t], Step(Unbounded, s, Run(t, false));
    p := OneStep(t, s, s1);
    if th.i == |th.objs| {
      slots := s.slots;
    } else {
      var q;
      q, slots := WriteAlone(s1, t);
      p := Join(p, q, t, s, s1, Goto(s1, t, Enq(EWait, th.objs, th.ehead, |th.objs|)).(slots := slots));
    }
  }

  lemma PublishAlone(s: State, t: nat) returns (p: seq<State>)
    requires Shape(s) && t < |s.threads| && s.threads[t].Enq? && s.threads[t].eat.EWait?
    requires s.threads[t].ehead == s.prodTail
    ensures var objs := s.threads[t].objs;
            Path(p, t, s, Goto(s, t, Done(|objs|, [])).(prodTail := s.prodTail + |objs|))
  {
    var th := s.threads[t];
    var s1 := Goto(s, t, Enq(EStore, th.objs, th.ehead, th.i));
    var s2 := Goto(s, t, Done(|th.objs|, [])).(prodTail := s.prodTail + |th.objs|);
    p := OneStep(t, s, s1);
    var q := OneStep(t, s1, s2);
    p := Join(p, q, t, s, s1, s2);
  }

  /** A published batch `objs` after state s. */
  function Published(s: State, t: nat, objs: seq<Item>, slots: seq<Item>): State
    requires t < |s.threads|
  {
    Goto(s, t, Done(|objs|, [])).(
      slots := slots, prodHead := s.prodHead + |objs|, prodTail := s.prodHead + |objs|,
      accepted := s.accepted + objs, producer := s.producer + seq(|objs|, _ => t))
  }

  /** From a reservation to the end of the call. */
  lemma FinishEnqueue(s: State, t: nat, objs: seq<Item>) returns (p: seq<State>, slots: seq<Item>)
    requires Shape(s) && t < |s.threads| && s.prodTail == s.prodHead
    ensures Path(p, t, Reserved(s, t, objs), Published(s, t, objs, slots))
  {
    var r := Reserved(s, t, objs);
    p, slots := WriteAlone(r, t);
    var r' := Goto(r, t, Enq(EWait, objs, s.prodHead, |objs|)).(slots := slots);
    var q := PublishAlone(r', t);
    p := Join(p, q, t, r, r', Goto(r', t, Done(|objs|, [])).(prodTail := s.prodTail + |objs|));
  }

  /** The states of a whole call that puts something in. */
  lemma EnqueuePath(s: State, t: nat, objs: seq<Item>) returns (p: seq<State>, slots: seq<Item>)
    requires Shape(s) && Ordered(s) && t < |s.threads| && !InCall(s.threads[t]) && s.prodTail == s.prodHead
    requires Min(|objs|, Free(s)) > 0
    ensures Path(p, t, Step(Unbounded, s, CallEnqueue(t, objs)),
                 Published(s, t, objs[..Min(|objs|, Free(s))], slots))
  {
    var batch := objs[..Min(|objs|, Free(s))];
    p := ReserveAlone(s, t, objs);
    var q;
    q, slots := FinishEnqueue(s, t, batch);
    p := Join(p, q, t, Step(Unbounded, s, CallEnqueue(t, objs)), Reserved(s, t, batch), Published(s, t, batch, slots));
  }

  lemma PublishedWaits(s: State, t: nat, objs: seq<Item>, slots: seq<Item>)
    requires Ordered(s) && t < |s.threads| && s.prodTail == s.prodHead && |objs| <= Free(s)
    requires Ordered(Published(s, t, objs, slots))
    ensures var s' := Published(s, t, objs, slots);
            Waiting(s') == Waiting(s) + objs && Free(s') == Free(s) - |objs|
  {
  }

  /** An undisturbed enqueue takes the first items of its argument, as many as there is room for, puts them at the end
      of the queue and returns their number. */
  lemma EnqueueAlone(s: State, t: nat, objs: seq<Item>) returns (run: seq<Action>)
    requires Reachable(s) && t < |s.threads| && !InCall(s.threads[t]) && s.prodTail == s.prodHead
    ensures Alone(run, CallEnqueue(t, objs))
    ensures Ordered(s) && Ordered(Exec(Unbounded, s, run))
    ensures var n, s' := Min(|objs|, Free(s)), Exec(Unbounded, s, run);
            && s'.threads == s.threads[t := Done(n, [])]
            && Waiting(s') == Waiting(s) + objs[..n] && Free(s') == Free(s) - n
  {
    ReachableInv(s);
    var call, n := CallEnqueue(t, objs), Min(|objs|, Free(s));
    if n == 0 {
      var p := ReserveAlone(s, t, objs);
      run := PathRuns(s, call, p, Goto(s, t, Done(0, [])));
      StaysOrdered(s, run);
    } else {
      var p, slots := EnqueuePath(s, t, objs);
      run := PathRuns(s, call, p, Published(s, t, objs[..n], slots));
      StaysOrdered(s, run);
      PublishedWaits(s, t, objs[..n], slots);
    }
  }

  // ---- Dequeue ---------------------------------------------------------------------------------------------

  function Call(t: nat, m: nat, storeOnly: bool): Action {
    if storeOnly then CallDequeueSc(t, m) else CallDequeueMc(t, m)
  }

  /** The copying loop, for either kind of dequeue. */
  lemma {:induction false} CopyAlone(s: State, t: nat) returns (p: seq<State>, buf: seq<Item>)
    requires Shape(s) && t < |s.threads| && s.threads[t].Deq? && (s.threads[t].dat.DCopy? || s.threads[t].dat.SCopy?)
    requires |s.threads[t].buf| <= s.threads[t].n
    ensures var th := s.threads[t];
            Path(p, t, s, Goto(s, t, Deq(if th.dat.DCopy? then DWait else SStoreHead, th.n, th.dhead, buf)))
    decreases s.threads[t].n - |s.threads[t].buf|
  {
    var th, s1 := s.threads[t], Step(Unbounded, s, Run(t, false));
    p := OneStep(t, s, s1);
    if |th.buf| == th.n {
      buf := th.buf;
    } else {
      var q;
      q, buf := CopyAlone(s1, t);
      p := Join(p, q, t, s, s1, Goto(s1, t, Deq(if th.dat.DCopy? then DWait else SStoreHead, th.n, th.dhead, buf)));
    }
  }

  /** A claim of n items in state s. */
  function Claimed(s: State, t: nat, n: nat): State
    requires t < |s.threads|
  {
    Goto(s, t, Deq(DCopy, n, s.consHead, [])).(consHead := s.consHead + n, consumer := s.consumer + seq(n, _ => t))
  }

  lemma ClaimAlone(s: State, t: nat, m: nat) returns (p: seq<State>)
    requires Shape(s) && Ordered(s) && t < |s.threads| && !InCall(s.threads[t]) && MayDequeue(s, t, false)
    ensures var n := Min(m, |Waiting(s)|);
            Path(p, t, Step(Unbounded, s, Call(t, m, false)),
                 if n == 0 then Goto(s, t, Done(0, [])) else Claimed(s, t, n))
  {
    var n, s1 := Min(m, |Waiting(s)|), Step(Unbounded, s, Call(t, m, false));
    var s2 := Goto(s, t, Deq(DLoadTail, m, s.consHead, []));
    var s3 := Goto(s, t, if n == 0 then Done(0, []) else Deq(DCas, n, s.consHead, []));
    p := OneStep(t, s1, s2);
    var q := OneStep(t, s2, s3);
    p := Join(p, q, t, s1, s2, s3);
    if n > 0 {
      q := ClaimCas(s, t, n);
      p := Join(p, q, t, s1, s3, Claimed(s, t, n));
    }
  }

  lemma ClaimCas(s: State, t: nat, n: nat) returns (p: seq<State>)
    requires Shape(s) && t < |s.threads|
    ensures Path(p, t, Goto(s, t, Deq(DCas, n, s.consHead, [])), Claimed(s, t, n))
  {
    p := OneStep(t, Goto(s, t, Deq(DCas, n, s.consHead, [])), Claimed(s, t, n));
  }

  /** What either kind of dequeue leaves behind after taking n items. */
  function Taken(s: State, t: nat, n: nat, buf: seq<Item>): State
    requires t < |s.threads|
  {
    Goto(s, t, Done(n, buf)).(
      consHead := s.consHead + n, consumer := s.consumer + seq(n, _ => t),
      consTail := s.consHead + n, delivered := s.delivered + buf)
  }

  lemma ReleaseAlone(s: State, t: nat, n: nat, buf: seq<Item>) returns (p: seq<State>)
    requires Shape(s) && t < |s.threads| && s.consTail == s.consHead
    ensures Path(p, t, Goto(Claimed(s, t, n), t, Deq(DWait, n, s.consHead, buf)), Taken(s, t, n, buf))
  {
    var s1 := Goto(Claimed(s, t, n), t, Deq(DWait, n, s.consHead, buf));
    var s2 := Goto(Claimed(s, t, n), t, Deq(DStore, n, s.consHead, buf));
    p := OneStep(t, s1, s2);
    var q := OneStep(t, s2, Taken(s, t, n, buf));
    p := Join(p, q, t, s1, s2, Taken(s, t, n, buf));
  }

  /** The store-only dequeue copies first and moves both counters afterwards. */
  lemma LoadAlone(s: State, t: nat, m: nat) returns (p: seq<State>)
    requires Shape(s) && Ordered(s) && t < |s.threads| && !InCall(s.threads[t]) && MayDequeue(s, t, true)
    ensures var n := Min(m, |Waiting(s)|);
            Path(p, t, Step(Unbounded, s, Call(t, m, true)),
                 Goto(s, t, if n == 0 then Done(0, []) else Deq(SCopy, n, s.consHead, [])))
  {
    var n, s1 := Min(m, |Waiting(s)|), Step(Unbounded, s, Call(t, m, true));
    var s2 := Goto(s, t, Deq(SLoadTail, m, s.consHead, []));
    var s3 := Goto(s, t, if n == 0 then Done(0, []) else Deq(SCopy, n, s.consHead, []));
    p := OneStep(t, s1, s2);
    var q := OneStep(t, s2, s3);
    p := Join(p, q, t, s1, s2, s3);
  }

  lemma StoreAlone(s: State, t: nat, n: nat, buf: seq<Item>) returns (p: seq<State>)
    requires Shape(s) && t < |s.threads|
    ensures Path(p, t, Goto(s, t, Deq(SStoreHead, n, s.consHead, buf)), Taken(s, t, n, buf))
  {
    var s1 := Goto(s, t, Deq(SStoreHead, n, s.consHead, buf));
    var s2 := Goto(s, t, Deq(SStoreTail, n, s.consHead, buf)).(
      consHead := s.consHead + n, consumer := s.consumer + seq(n, _ => t));
    p := OneStep(t, s1, s2);
    var q := OneStep(t, s2, Taken(s, t, n, buf));
    p := Join(p, q, t, s1, s2, Taken(s, t, n, buf));
  }

  lemma McAlone(s: State, t: nat, n: nat) returns (p: seq<State>, buf: seq<Item>)
    requires Shape(s) && t < |s.threads| && s.consTail == s.consHead
    ensures Path(p, t, Claimed(s, t, n), Taken(s, t, n, buf))
  {
    p, buf := CopyAlone(Claimed(s, t, n), t);
    var q := ReleaseAlone(s, t, n, buf);
    var r := Goto(Claimed(s, t, n), t, Deq(DWait, n, s.consHead, buf));
    p := Join(p, q, t, Claimed(s, t, n), r, Taken(s, t, n, buf));
  }

  lemma ScAlone(s: State, t: nat, n: nat) returns (p: seq<State>, buf: seq<Item>)
    requires Shape(s) && t < |s.threads|
    ensures Path(p, t, Goto(s, t, Deq(SCopy, n, s.consHead, [])), Taken(s, t, n, buf))
  {
    var r := Goto(s, t, Deq(SCopy, n, s.consHead, []));
    p, buf := CopyAlone(r, t);
    var q := StoreAlone(s, t, n, buf);
    GotoTwice(s, t, Deq(SCopy, n, s.consHead, []), Deq(SStoreHead, n, s.consHead, buf));
    p := Join(p, q, t, r, Goto(s, t, Deq(SStoreHead, n, s.consHead, buf)), Taken(s, t, n, buf));
  }

  lemma GotoTwice(s: State, t: nat, x: Thread, y: Thread)
    requires t < |s.threads|
    ensures Goto(Goto(s, t, x), t, y) == Goto(s, t, y)
  {
  }

  /** The states of a whole call that takes something. */
  lemma DequeuePath(s: State, t: nat, m: nat, storeOnly: bool) returns (p: seq<State>, buf: seq<Item>)
    requires Shape(s) && Ordered(s) && t < |s.threads| && !InCall(s.threads[t]) && MayDequeue(s, t, storeOnly)
    requires s.consTail == s.consHead && Min(m, |Waiting(s)|) > 0
    ensures Path(p, t, Step(Unbounded, s, Call(t, m, storeOnly)), Taken(s, t, Min(m, |Waiting(s)|), buf))
  {
    var n, s1 := Min(m, |Waiting(s)|), Step(Unbounded, s, Call(t, m, storeOnly));
    var q;
    if storeOnly {
      p := LoadAlone(s, t, m);
      q, buf := ScAlone(s, t, n);
      p := Join(p, q, t, s1, Goto(s, t, Deq(SCopy, n, s.consHead, [])), Taken(s, t, n, buf));
    } else {
      p := ClaimAlone(s, t, m);
      q, buf := McAlone(s, t, n);
      p := Join(p, q, t, s1, Claimed(s, t, n), Taken(s, t, n, buf));
    }
  }

  lemma EmptyPath(s: State, t: nat, m: nat, storeOnly: bool) returns (p: seq<State>)
    requires Shape(s) && Ordered(s) && t < |s.threads| && !InCall(s.threads[t]) && MayDequeue(s, t, storeOnly)
    requires Min(m, |Waiting(s)|) == 0
    ensures Path(p, t, Step(Unbounded, s, Call(t, m, storeOnly)), Goto(s, t, Done(0, [])))
  {
    if storeOnly {
      p := LoadAlone(s, t, m);
    } else {
      p := ClaimAlone(s, t, m);
    }
  }

  /** An undisturbed dequeue of either kind takes the first items of the queue, as many as there are up to its
      request, and returns them. */
  lemma DequeueAlone(s: State, t: nat, m: nat, storeOnly: bool) returns (run: seq<Action>)
    requires Reachable(s) && t < |s.threads| && !InCall(s.threads[t]) && MayDequeue(s, t, storeOnly)
    requires s.consTail == s.consHead
    ensures Alone(run, Call(t, m, storeOnly))
    ensures Ordered(s) && Ordered(Exec(Unbounded, s, run))
    ensures var n, s' := Min(m, |Waiting(s)|), Exec(Unbounded, s, run);
            && s'.threads == s.threads[t := Done(n, Waiting(s)[..n])]
            && Waiting(s') == Waiting(s)[n..] && Free(s') == Free(s) + n
  {
    ReachableInv(s);
    var call, n := Call(t, m, storeOnly), Min(m, |Waiting(s)|);
    if n == 0 {
      var p := EmptyPath(s, t, m, storeOnly);
      run := PathRuns(s, call, p, Goto(s, t, Done(0, [])));
      StaysOrdered(s, run);
    } else {
      var p, buf := DequeuePath(s, t, m, storeOnly);
      run := PathRuns(s, call, p, Taken(s, t, n, buf));
      StaysOrdered(s, run);
      TakenIs(s, t, n, buf);
    }
  }

  /** What was taken is what stood at the front. */
  lemma TakenIs(s: State, t: nat, n: nat, buf: seq<Item>)
    requires Ordered(s) && t < |s.threads| && Ordered(Taken(s, t, n, buf)) && s.consTail == s.consHead
    requires n <= |Waiting(s)|
    ensures buf == Waiting(s)[..n]
  {
    Split(s.accepted, 0, s.consHead, s.consHead + n);
    assert s.accepted[..s.consHead + n] == s.accepted[..s.consHead] + buf;
    assert (s.accepted[..s.consHead] + buf)[s.consHead..] == buf;
  }

  // ---- The compare-exchange of an enqueue ------------------------------------------------------------------------

  /** An enqueue that has come to its compare-exchange reserves its batch exactly if it does not fail spuriously and the
      head it loaded is still current; otherwise it starts over. */
  lemma ReservesIffCurrent(s: State, t: nat, spurious: bool)
    requires Reachable(s) && t < |s.threads| && s.threads[t].Enq? && s.threads[t].eat.ECas?
    ensures Shape(s)
    ensures var s', th := Step(Unbounded, s, Run(t, spurious)), s.threads[t];
            && s'.threads[t].Enq? && s'.threads[t].objs == th.objs
            && if !spurious && th.ehead == s.prodHead then
                 && s'.accepted == s.accepted + th.objs && s'.prodHead == s.prodHead + |th.objs|
                 && Reserving(s'.threads[t])
               else s'.accepted == s.accepted && s'.prodHead == s.prodHead && s'.threads[t].eat.ELoadHead?
  {
    ReachableInv(s);
  }
}
