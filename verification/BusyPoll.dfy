/** run_busy of scheduler.cc: every iteration drains the affine queue, then takes one batch of at most 64 items from
    each other queue, then drains the affine queue again.  Executed items, and other threads, may append anything to
    any queue: `Arrive` stands before every dequeue and after every executed item.  A drain is assumed to end, after
    some number of batches. */
module BusyPoll {
  import opened Words

  type Item = int

  const MAX_BATCH: nat := 64

  // ---- What has been executed from a queue, in order ----------------------------------------------------

  function Ran(executed: seq<(nat, Item)>, q: nat): seq<Item> {
    if executed == [] then []
    else
      var x := executed[|executed| - 1];
      Ran(executed[..|executed| - 1], q) + if x.0 == q then [x.1] else []
  }

  lemma RanNext(executed: seq<(nat, Item)>, x: (nat, Item), q: nat)
    ensures Ran(executed + [x], q) == Ran(executed, q) + if x.0 == q then [x.1] else []
  {
    assert (executed + [x])[..|executed|] == executed;
  }

  lemma {:induction false} RanGrows(executed: seq<(nat, Item)>, executed': seq<(nat, Item)>, q: nat)
    requires executed <= executed'
    ensures |Ran(executed, q)| <= |Ran(executed', q)|
  {
    var m := |executed'| - 1;
    if |executed| <= m {
      RanGrows(executed, executed'[..m], q);
    } else {
      assert executed == executed';
    }
  }

  /** Everything that has ever been in queue q, in order of arrival: the executed items, then those still waiting. */
  function Ledger(queues: seq<seq<Item>>, executed: seq<(nat, Item)>, q: nat): seq<Item>
    requires q < |queues|
  {
    Ran(executed, q) + queues[q]
  }

  /** No queue loses, repeats or reorders anything: ledgers only grow at their end. */
  predicate Keeps(queues: seq<seq<Item>>, executed: seq<(nat, Item)>, queues': seq<seq<Item>>,
                  executed': seq<(nat, Item)>)
  {
    |queues'| == |queues| &&
    forall q :: 0 <= q < |queues| ==> Ledger(queues, executed, q) <= Ledger(queues', executed', q)
  }

  /** At least min(count, all that waited) items of queue q have been executed in between. */
  predicate Served(queues: seq<seq<Item>>, executed: seq<(nat, Item)>, executed': seq<(nat, Item)>, q: nat, count: nat)
    requires q < |queues|
  {
    |Ran(executed', q)| >= |Ran(executed, q)| + Min(count, |queues[q]|)
  }

  predicate AllServed(queues: seq<seq<Item>>, executed: seq<(nat, Item)>, executed': seq<(nat, Item)>, affine: nat,
                      count: nat)
  {
    forall q :: 0 <= q < |queues| && q != affine ==> Served(queues, executed, executed', q, count)
  }

  /** What n iterations do. */
  predicate Advances(queues: seq<seq<Item>>, executed: seq<(nat, Item)>, queues': seq<seq<Item>>,
                     executed': seq<(nat, Item)>, affine: nat, n: nat)
  {
    && Keeps(queues, executed, queues', executed')
    && AllServed(queues, executed, executed', affine, MAX_BATCH * n)
  }

  /** What was executed in between came from queue q. */
  predicate OnlyFrom(executed: seq<(nat, Item)>, executed': seq<(nat, Item)>, q: nat) {
    executed <= executed' && forall i :: |executed| <= i < |executed'| ==> executed'[i].0 == q
  }

  /** Everything that waited in the affine queue has been executed, and nothing from another queue before it. */
  predicate AffineFirst(queues: seq<seq<Item>>, executed: seq<(nat, Item)>, executed': seq<(nat, Item)>, affine: nat) {
    affine < |queues| ==>
      exists k :: |executed| <= k <= |executed'| && OnlyFrom(executed, executed'[..k], affine) &&
        Ran(executed, affine) + queues[affine] <= Ran(executed'[..k], affine)
  }

  /** A drain that has ended puts the affine queue first, whatever is executed afterwards. */
  lemma DrainedFirst(q0: seq<seq<Item>>, e0: seq<(nat, Item)>, q1: seq<seq<Item>>, e1: seq<(nat, Item)>,
                     e2: seq<(nat, Item)>, affine: nat)
    requires Keeps(q0, e0, q1, e1) && OnlyFrom(e0, e1, affine) && e1 <= e2
    requires affine < |q1| ==> q1[affine] == []
    ensures AffineFirst(q0, e0, e2, affine)
  {
    if affine < |q0| {
      assert Ledger(q0, e0, affine) <= Ledger(q1, e1, affine) == Ran(e1, affine);
      assert e2[..|e1|] == e1;
    }
  }

  lemma KeepsTransitive(q0: seq<seq<Item>>, e0: seq<(nat, Item)>, q1: seq<seq<Item>>, e1: seq<(nat, Item)>,
                        q2: seq<seq<Item>>, e2: seq<(nat, Item)>)
    requires Keeps(q0, e0, q1, e1) && Keeps(q1, e1, q2, e2)
    ensures Keeps(q0, e0, q2, e2)
  {
    forall q | 0 <= q < |q0|
      ensures Ledger(q0, e0, q) <= Ledger(q2, e2, q)
    {
      assert Ledger(q0, e0, q) <= Ledger(q1, e1, q) <= Ledger(q2, e2, q);
    }
  }

  /** First `count` items, then 64 more. */
  lemma ServedMore(q0: seq<seq<Item>>, e0: seq<(nat, Item)>, q1: seq<seq<Item>>, e1: seq<(nat, Item)>,
                   e2: seq<(nat, Item)>, affine: nat, count: nat, more: nat)
    requires more == count + MAX_BATCH
    requires |q0| == |q1| && forall q :: 0 <= q < |q0| ==> Ledger(q0, e0, q) <= Ledger(q1, e1, q)
    requires AllServed(q0, e0, e1, affine, count) && AllServed(q1, e1, e2, affine, MAX_BATCH)
    ensures AllServed(q0, e0, e2, affine, more)
  {
    forall q | 0 <= q < |q0| && q != affine
      ensures Served(q0, e0, e2, q, more)
    {
      assert Served(q0, e0, e1, q, count) && Served(q1, e1, e2, q, MAX_BATCH);
      assert |Ledger(q0, e0, q)| <= |Ledger(q1, e1, q)|;
    }
  }

  lemma OneMoreIteration(q0: seq<seq<Item>>, e0: seq<(nat, Item)>, q1: seq<seq<Item>>, e1: seq<(nat, Item)>,
                         q2: seq<seq<Item>>, e2: seq<(nat, Item)>, affine: nat, n: nat)
    requires Advances(q0, e0, q1, e1, affine, n) && Advances(q1, e1, q2, e2, affine, 1)
    ensures Advances(q0, e0, q2, e2, affine, n + 1)
  {
    KeepsTransitive(q0, e0, q1, e1, q2, e2);
    assert MAX_BATCH * 1 == MAX_BATCH && MAX_BATCH * (n + 1) == MAX_BATCH * n + MAX_BATCH;
    ServedMore(q0, e0, q1, e1, e2, affine, MAX_BATCH * n, MAX_BATCH * (n + 1));
  }

  /** Bounded waiting: an item with k items ahead of it in a queue other than the affine one has been executed by the
      end of iteration k / 64 + 1, whatever is enqueued in the meantime: the items executed from that queue go on with
      the k items ahead of it and with it. */
  lemma BoundedWait(queues: seq<seq<Item>>, executed: seq<(nat, Item)>, queues': seq<seq<Item>>,
                    executed': seq<(nat, Item)>, affine: nat, n: nat, q: nat, k: nat)
    requires Advances(queues, executed, queues', executed', affine, n)
    requires q < |queues| && q != affine && k < |queues[q]| && k / MAX_BATCH < n
    ensures Ran(executed, q) + queues[q][..k + 1] <= Ran(executed', q)
  {
    FullBatches(k, n);
    ServedCovers(queues, executed, executed', affine, MAX_BATCH * n, q, k);
    assert Ledger(queues, executed, q) <= Ledger(queues', executed', q);
    InPlace(Ran(executed, q), queues[q], Ran(executed', q), queues'[q], k);
  }

  lemma FullBatches(k: nat, n: nat)
    requires k / MAX_BATCH < n
    ensures k < MAX_BATCH * n
  {
  }

  lemma ServedCovers(queues: seq<seq<Item>>, executed: seq<(nat, Item)>, executed': seq<(nat, Item)>, affine: nat,
                     count: nat, q: nat, k: nat)
    requires AllServed(queues, executed, executed', affine, count)
    requires q < |queues| && q != affine && k < |queues[q]| && k < count
    ensures |Ran(executed', q)| > |Ran(executed, q)| + k
  {
    assert Served(queues, executed, executed', q, count);
  }

  lemma InPlace(ran: seq<Item>, queue: seq<Item>, ran': seq<Item>, queue': seq<Item>, k: nat)
    requires ran + queue <= ran' + queue' && k < |queue| && |ran'| > |ran| + k
    ensures ran + queue[..k + 1] <= ran'
  {
    forall i | 0 <= i < |ran| + k + 1
      ensures (ran + queue[..k + 1])[i] == ran'[i]
    {
      assert (ran + queue)[i] == (ran' + queue')[i];
    }
  }

  /** Executing one item. */
  lemma ExecuteKeeps(queues: seq<seq<Item>>, executed: seq<(nat, Item)>, q: nat, batch: seq<Item>, i: nat)
    requires q < |queues| && i < |batch|
    ensures var executed' := executed + [(q, batch[i])];
            && Ran(executed', q) + batch[i + 1..] == Ran(executed, q) + batch[i..]
            && |Ran(executed', q)| == |Ran(executed, q)| + 1
            && forall p :: p != q ==> Ran(executed', p) == Ran(executed, p)
  {
    forall p
      ensures Ran(executed + [(q, batch[i])], p) == Ran(executed, p) + if p == q then [batch[i]] else []
    {
      RanNext(executed, (q, batch[i]), p);
    }
    assert batch[i..] == [batch[i]] + batch[i + 1..];
  }

  class BusyScheduler {
    const affineIdx: nat
    const diskIdx: nat
    /** What arrives at the e-th arrival event: a list of items for each queue. */
    const arrivals: nat -> seq<seq<Item>>
    var queues: seq<seq<Item>>
    var executed: seq<(nat, Item)>
    var event: nat

    constructor (affineIdx: nat, diskIdx: nat, arrivals: nat -> seq<seq<Item>>, queues: seq<seq<Item>>)
      ensures this.affineIdx == affineIdx && this.diskIdx == diskIdx && this.queues == queues && executed == []
    {
      this.affineIdx, this.diskIdx, this.arrivals := affineIdx, diskIdx, arrivals;
      this.queues, executed, event := queues, [], 0;
    }

    /** Whatever happens at one moment: some items are appended to some queues. */
    method Arrive()
      modifies `queues, `event
      ensures |queues| == |old(queues)| && forall q :: 0 <= q < |queues| ==> old(queues)[q] <= queues[q]
    {
      var more := arrivals(event);
      queues := seq(|queues|, q requires 0 <= q < |queues| reads this =>
        if q < |more| then queues[q] + more[q] else queues[q]);
      event := event + 1;
    }

    /** The loop that executes a batch taken from queue q. */
    method Execute(q: nat, batch: seq<Item>)
      requires q < |queues|
      modifies this
      ensures |queues| == |old(queues)| && forall p :: 0 <= p < |queues| ==> old(queues)[p] <= queues[p]
      ensures Ran(executed, q) == Ran(old(executed), q) + batch
      ensures forall p :: p != q ==> Ran(executed, p) == Ran(old(executed), p)
      ensures batch == [] ==> queues == old(queues) && executed == old(executed)
      ensures OnlyFrom(old(executed), executed, q)
    {
      ghost var queues0 := queues;
      for i := 0 to |batch|
        invariant OnlyFrom(old(executed), executed, q)
        invariant |queues| == |queues0| && forall p :: 0 <= p < |queues| ==> queues0[p] <= queues[p]
        invariant Ran(executed, q) + batch[i..] == Ran(old(executed), q) + batch
        invariant forall p :: p != q ==> Ran(executed, p) == Ran(old(executed), p)
        invariant batch == [] ==> queues == queues0 && executed == old(executed)
      {
        ExecuteKeeps(queues, executed, q, batch, i);
        executed := executed + [(q, batch[i])];
        Arrive();
      }
    }

    /** try_dequeue_batch and the execution of what it returned. */
    method TakeBatch(q: nat) returns (n: nat)
      requires q < |queues|
      modifies this
      ensures Keeps(old(queues), old(executed), queues, executed)
      ensures Min(MAX_BATCH, |old(queues)[q]|) <= n <= MAX_BATCH
      ensures |Ran(executed, q)| == |Ran(old(executed), q)| + n
      ensures forall p :: p != q ==> Ran(executed, p) == Ran(old(executed), p)
      ensures n == 0 ==> queues[q] == []
      ensures OnlyFrom(old(executed), executed, q)
    {
      ghost var queues0 := queues;
      Arrive();
      ghost var queues1 := queues;
      n := Min(MAX_BATCH, |queues[q]|);
      var batch := queues[q][..n];
      queues := queues[q := queues[q][n..]];
      ghost var queues2 := queues;
      Execute(q, batch);
      forall p | 0 <= p < |queues|
        ensures Ledger(queues0, old(executed), p) <= Ledger(queues, executed, p)
      {
        assert queues0[p] <= queues1[p] && queues2[p] <= queues[p];
        if p == q {
          assert queues1[q] == batch + queues2[q];
        }
      }
    }

    /** drain_p0, cut off after `batches` batches; it has ended if it found the queue empty. */
    method DrainAffine(batches: nat) returns (ended: bool)
      modifies this
      ensures Keeps(old(queues), old(executed), queues, executed)
      ensures forall p :: p != affineIdx ==> Ran(executed, p) == Ran(old(executed), p)
      ensures ended && affineIdx < |queues| ==> queues[affineIdx] == []
      ensures OnlyFrom(old(executed), executed, affineIdx)
      ensures !ended ==> |Ran(executed, affineIdx)| >= |Ran(old(executed), affineIdx)| + batches
    {
      if affineIdx >= |queues| {
        return true;
      }
      for b := 0 to batches
        invariant Keeps(old(queues), old(executed), queues, executed)
        invariant OnlyFrom(old(executed), executed, affineIdx)
        invariant |Ran(executed, affineIdx)| >= |Ran(old(executed), affineIdx)| + b
        invariant forall p :: p != affineIdx ==> Ran(executed, p) == Ran(old(executed), p)
      {
        ghost var queues1, executed1 := queues, executed;
        var n := TakeBatch(affineIdx);
        KeepsTransitive(old(queues), old(executed), queues1, executed1, queues, executed);
        if n == 0 {
          return true;
        }
      }
      return false;
    }

    /** The queues in `done` have had a batch since; the others have executed nothing since. */
    ghost predicate Progress(queues0: seq<seq<Item>>, executed0: seq<(nat, Item)>, done: set<nat>)
      reads this
    {
      && Keeps(queues0, executed0, queues, executed)
      && forall p :: 0 <= p < |queues| && p != affineIdx ==>
           if p in done then Served(queues0, executed0, executed, p, MAX_BATCH)
           else Ran(executed, p) == Ran(executed0, p)
    }

    method ServeOne(q: nat, ghost queues0: seq<seq<Item>>, ghost executed0: seq<(nat, Item)>, ghost done: set<nat>)
      requires q < |queues| && q !in done && Progress(queues0, executed0, done)
      modifies this
      ensures |queues| == |old(queues)| && Progress(queues0, executed0, done + {q}) && old(executed) <= executed
    {
      ghost var queues1, executed1 := queues, executed;
      assert Ledger(queues0, executed0, q) <= Ledger(queues1, executed1, q);
      var n := TakeBatch(q);
      KeepsTransitive(queues0, executed0, queues1, executed1, queues, executed);
    }

    /** The middle of an iteration: the disk queue first, then the other queues in order, one batch each. */
    method ServeOthers(ghost queues0: seq<seq<Item>>, ghost executed0: seq<(nat, Item)>)
      requires Progress(queues0, executed0, {})
      modifies this
      ensures Advances(queues0, executed0, queues, executed, affineIdx, 1) && old(executed) <= executed
    {
      ghost var done: set<nat> := {};
      if diskIdx < |queues| {
        ServeOne(diskIdx, queues0, executed0, done);
        done := {diskIdx};
      }
      for q := 0 to |queues|
        invariant |queues| == |queues0| && Progress(queues0, executed0, done) && old(executed) <= executed
        invariant forall p :: p in done <==> 0 <= p < |queues| && ((p < q && p != affineIdx) || p == diskIdx)
      {
        if q != affineIdx && q != diskIdx {
          ServeOne(q, queues0, executed0, done);
          done := done + {q};
        }
      }
    }

    /** One turn of the loop; `batches1` and `batches2` say when the two drains are cut off.  If the first ends before,
        what waited in the affine queue was executed before anything else; if the second does, it leaves that queue
        empty.  A drain that is cut off has executed an item per batch at least. */
    method Iteration(batches1: nat, batches2: nat) returns (ended1: bool, ended2: bool)
      modifies this
      ensures Advances(old(queues), old(executed), queues, executed, affineIdx, 1)
      ensures ended1 ==> AffineFirst(old(queues), old(executed), executed, affineIdx)
      ensures ended2 && affineIdx < |queues| ==> queues[affineIdx] == []
      ensures !ended1 ==> |Ran(executed, affineIdx)| >= |Ran(old(executed), affineIdx)| + batches1
      ensures !ended2 ==> |Ran(executed, affineIdx)| >= |Ran(old(executed), affineIdx)| + batches2
      ensures old(executed) <= executed
    {
      ended1 := DrainAffine(batches1);
      ghost var queues0, executed0 := queues, executed;
      ServeOthers(old(queues), old(executed));
      ghost var queues1, executed1 := queues, executed;
      ended2 := DrainAffine(batches2);
      RanGrows(executed0, executed, affineIdx);
      RanGrows(old(executed), executed1, affineIdx);
      KeepsTransitive(old(queues), old(executed), queues1, executed1, queues, executed);
      if ended1 {
        DrainedFirst(old(queues), old(executed), queues0, executed0, executed, affineIdx);
      }
      forall q | 0 <= q < |queues| && q != affineIdx
        ensures Served(old(queues), old(executed), executed, q, MAX_BATCH)
      {
        assert Served(old(queues), old(executed), executed1, q, MAX_BATCH);
      }
      assert MAX_BATCH * 1 == MAX_BATCH;
    }

    /** The loop while running_ stays set: n iterations, whose drains end after `batches` of them.  If the last drain
        ends, the affine queue is empty: everything that ever waited there has been executed. */
    method Loop(n: nat, batches: nat -> nat) returns (ended: bool)
      modifies this
      ensures Advances(old(queues), old(executed), queues, executed, affineIdx, n)
      ensures n > 0 && ended && affineIdx < |queues| ==>
                && queues[affineIdx] == []
                && Ran(old(executed), affineIdx) + old(queues)[affineIdx] <= Ran(executed, affineIdx)
      ensures n > 0 && !ended ==>
                |Ran(executed, affineIdx)| >= |Ran(old(executed), affineIdx)| + batches(2 * n - 1)
    {
      ended := false;
      for i := 0 to n
        invariant Advances(old(queues), old(executed), queues, executed, affineIdx, i)
        invariant i > 0 && ended && affineIdx < |queues| ==> queues[affineIdx] == []
        invariant old(executed) <= executed
        invariant i > 0 && !ended ==>
                    |Ran(executed, affineIdx)| >= |Ran(old(executed), affineIdx)| + batches(2 * i - 1)
      {
        ghost var queues1, executed1 := queues, executed;
        var ended1;
        ended1, ended := Iteration(batches(2 * i), batches(2 * i + 1));
        OneMoreIteration(old(queues), old(executed), queues1, executed1, queues, executed, affineIdx, i);
        RanGrows(old(executed), executed1, affineIdx);
      }
      if n > 0 && ended && affineIdx < |queues| {
        assert Ledger(old(queues), old(executed), affineIdx) <= Ledger(queues, executed, affineIdx);
      }
    }
  }
}
