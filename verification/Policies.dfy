/** round_robin_policy.cc and strict_priority_policy.cc: which queue a scheduler serves next, and how long a queue that
    always has work can be passed over. */
module Policies {
  import opened Words

  datatype Priority = P0 | P1 | P2 | P3

  datatype QueueSnapshot = QueueSnapshot(priority: Priority, count: nat)

  datatype Decision = Decision(queue: nat, batch: nat, idle: bool)

  const IDLE: Decision := Decision(0, 0, true)

  // ---- Scanning a ring of queues ----------------------------------------------------------------------

  /** Which queues are candidates: non-empty, and of priority `only` if one is given. */
  datatype Filter = Any | Only(priority: Priority)

  predicate Ready(q: QueueSnapshot, f: Filter) { q.count > 0 && (f.Any? || q.priority == f.priority) }

  /** The index `o` places after `last`, going round. */
  function After(last: nat, o: nat, n: nat): (i: nat)
    requires n > 0
    ensures i < n
  {
    (last + o) % n
  }

  /** The least offset >= o at which a candidate stands; |queues| + 1 if none does. */
  function Scan(queues: seq<QueueSnapshot>, f: Filter, last: nat, o: nat): (r: nat)
    requires queues != [] && 1 <= o <= |queues| + 1
    ensures o <= r <= |queues| + 1
    ensures r <= |queues| ==> Ready(queues[After(last, r, |queues|)], f)
    ensures forall j :: o <= j < r ==> !Ready(queues[After(last, j, |queues|)], f)
    decreases |queues| + 1 - o
  {
    if o > |queues| then o
    else if Ready(queues[After(last, o, |queues|)], f) then o
    else Scan(queues, f, last, o + 1)
  }

  predicate AnyReady(queues: seq<QueueSnapshot>, f: Filter) {
    exists i :: 0 <= i < |queues| && Ready(queues[i], f)
  }

  /** How far queue `q` is ahead of `last`, going round: between 1 and n. */
  function Distance(last: nat, q: nat, n: nat): (d: nat)
    requires q < n
    ensures 1 <= d <= n
  {
    if q > last % n then q - last % n else q - last % n + n
  }

  lemma AfterIs(last: nat, o: nat, n: nat)
    requires n > 0 && o <= n
    ensures After(last, o, n) == if last % n + o < n then last % n + o else last % n + o - n
  {
    var l, m := last % n, last / n;
    if l + o < n {
      assert last + o == n * m + (l + o);
      DivModUnique(last + o, n, m, l + o);
    } else if l + o < 2 * n {
      assert last + o == n * (m + 1) + (l + o - n) by {
        assert n * (m + 1) == n * m + n;
      }
      DivModUnique(last + o, n, m + 1, l + o - n);
    }
  }

  lemma SmallMod(x: nat, n: nat)
    requires x < n
    ensures x % n == x
  {
    DivModUnique(x, n, 0, x);
  }

  lemma DistanceReaches(last: nat, q: nat, n: nat)
    requires q < n
    ensures After(last, Distance(last, q, n), n) == q
  {
    AfterIs(last, Distance(last, q, n), n);
  }

  /** A scan finds a candidate exactly when there is one. */
  lemma ScanFinds(queues: seq<QueueSnapshot>, f: Filter, last: nat)
    requires queues != []
    ensures Scan(queues, f, last, 1) <= |queues| <==> AnyReady(queues, f)
  {
    if AnyReady(queues, f) {
      var i :| 0 <= i < |queues| && Ready(queues[i], f);
      DistanceReaches(last, i, |queues|);
    }
  }

  /** Serving another candidate brings a waiting candidate strictly closer. */
  lemma ScanComesCloser(queues: seq<QueueSnapshot>, f: Filter, last: nat, q: nat)
    requires q < |queues| && Ready(queues[q], f)
    ensures var n := |queues|;
            var r := Scan(queues, f, last, 1);
            && 1 <= r <= Distance(last, q, n)
            && (After(last, r, n) != q ==> Distance(After(last, r, n), q, n) == Distance(last, q, n) - r)
            && (After(last, r, n) == q ==> r == Distance(last, q, n))
  {
    var n := |queues|;
    var r, d := Scan(queues, f, last, 1), Distance(last, q, n);
    DistanceReaches(last, q, n);
    AfterIs(last, r, n);
    AfterIs(last, d, n);
    SmallMod(After(last, r, n), n);
  }

  // ---- Round robin ------------------------------------------------------------------------------------

  /** One decision as a function of the remembered index. */
  function RoundRobin(last: nat, maxBatch: nat, queues: seq<QueueSnapshot>): (Decision, nat) {
    if queues == [] then (IDLE, last)
    else
      var r := Scan(queues, Any, last, 1);
      if r > |queues| then (IDLE, last)
      else
        var i := After(last, r, |queues|);
        (Decision(i, Min(queues[i].count, maxBatch), false), i)
  }

  class RoundRobinPolicy {
    const maxBatch: nat
    var lastIndex: nat

    constructor (maxBatch: nat)
      ensures this.maxBatch == maxBatch && lastIndex == 0
    {
      this.maxBatch := maxBatch;
      lastIndex := 0;
    }

    method Decide(queues: seq<QueueSnapshot>) returns (d: Decision)
      modifies this
      ensures (d, lastIndex) == RoundRobin(old(lastIndex), maxBatch, queues)
    {
      var n := |queues|;
      if n == 0 {
        return IDLE;
      }
      for o := 1 to n + 1
        invariant lastIndex == old(lastIndex)
        invariant Scan(queues, Any, lastIndex, o) == Scan(queues, Any, lastIndex, 1)
      {
        var i := (lastIndex + o) % n;
        if queues[i].count > 0 {
          lastIndex := i;
          return Decision(i, Min(queues[i].count, maxBatch), false);
        }
      }
      return IDLE;
    }
  }

  /** Round robin idles exactly when every queue is empty; otherwise it serves a non-empty one. */
  lemma RoundRobinServes(last: nat, maxBatch: nat, queues: seq<QueueSnapshot>)
    ensures var d := RoundRobin(last, maxBatch, queues).0;
            && (d.idle <==> forall i :: 0 <= i < |queues| ==> queues[i].count == 0)
            && (!d.idle ==> d.queue < |queues| && queues[d.queue].count > 0
                            && d.batch == Min(queues[d.queue].count, maxBatch))
  {
    if queues != [] {
      ScanFinds(queues, Any, last);
      if !AnyReady(queues, Any) {
        forall i | 0 <= i < |queues|
          ensures queues[i].count == 0
        {
          assert !Ready(queues[i], Any);
        }
      }
    }
  }

  /** The decisions of a run over changing snapshots. */
  function RoundRobinRun(last: nat, maxBatch: nat, snaps: seq<seq<QueueSnapshot>>): (ds: seq<Decision>)
    ensures |ds| == |snaps|
    decreases |snaps|
  {
    if snaps == [] then []
    else
      var (d, last') := RoundRobin(last, maxBatch, snaps[0]);
      [d] + RoundRobinRun(last', maxBatch, snaps[1..])
  }

  /** A queue that is non-empty at every decision is served within as many decisions as it is places away, hence
      within n decisions. */
  lemma {:induction false} RoundRobinBoundedWait(last: nat, maxBatch: nat,
                                                 snaps: seq<seq<QueueSnapshot>>, n: nat, q: nat)
    requires q < n && |snaps| >= Distance(last, q, n)
    requires forall k :: 0 <= k < |snaps| ==> |snaps[k]| == n && snaps[k][q].count > 0
    ensures exists k :: 0 <= k < Distance(last, q, n) && RoundRobinRun(last, maxBatch, snaps)[k].queue == q
                        && !RoundRobinRun(last, maxBatch, snaps)[k].idle
    decreases |snaps|
  {
    ScanComesCloser(snaps[0], Any, last, q);
    var (d, last') := RoundRobin(last, maxBatch, snaps[0]);
    var ds := RoundRobinRun(last, maxBatch, snaps);
    assert ds[0] == d;
    if d.queue != q {
      RoundRobinBoundedWait(last', maxBatch, snaps[1..], n, q);
      var k :| 0 <= k < Distance(last', q, n) && RoundRobinRun(last', maxBatch, snaps[1..])[k].queue == q
               && !RoundRobinRun(last', maxBatch, snaps[1..])[k].idle;
      assert ds[k + 1] == RoundRobinRun(last', maxBatch, snaps[1..])[k];
    }
  }

  predicate AllEmpty(queues: seq<QueueSnapshot>) { forall i :: 0 <= i < |queues| ==> queues[i].count == 0 }

  /** An idle decision changes nothing for the decisions after it. */
  lemma RoundRobinIdleKeepsTurn(last: nat, maxBatch: nat, snaps: seq<seq<QueueSnapshot>>)
    requires snaps != [] && AllEmpty(snaps[0])
    ensures RoundRobinRun(last, maxBatch, snaps) == [IDLE] + RoundRobinRun(last, maxBatch, snaps[1..])
  {
    RoundRobinServes(last, maxBatch, snaps[0]);
  }

  // ---- Strict priority --------------------------------------------------------------------------------

  datatype Served = Nothing | At(priority: Priority)

  /** The remembered state: the priority served last and the queue served there. */
  datatype Memory = Memory(prio: Served, idx: nat)

  function Level(prio: nat): Priority
    requires prio <= 3
  {
    if prio == 0 then P0 else if prio == 1 then P1 else if prio == 2 then P2 else P3
  }

  function Rank(p: Priority): nat {
    match p case P0 => 0 case P1 => 1 case P2 => 2 case P3 => 3
  }

  /** The most urgent level from `prio` on that has work; 4 if none has. */
  function BestFrom(queues: seq<QueueSnapshot>, prio: nat): (r: nat)
    requires prio <= 4
    ensures prio <= r <= 4
    ensures r <= 3 ==> AnyReady(queues, Only(Level(r)))
    ensures forall p :: prio <= p < r ==> !AnyReady(queues, Only(Level(p)))
    decreases 4 - prio
  {
    if prio == 4 || AnyReady(queues, Only(Level(prio))) then prio else BestFrom(queues, prio + 1)
  }

  function Base(m: Memory, p: Priority): nat { if m.prio == At(p) then m.idx else 0 }

  function Strict(m: Memory, maxBatch: nat, queues: seq<QueueSnapshot>): (Decision, Memory) {
    var best := BestFrom(queues, 0);
    if queues == [] then (IDLE, m)
    else if best > 3 then (IDLE, Memory(Nothing, 0))
    else
      var p := Level(best);
      ScanFinds(queues, Only(p), Base(m, p));
      var i := After(Base(m, p), Scan(queues, Only(p), Base(m, p), 1), |queues|);
      (Decision(i, Min(queues[i].count, maxBatch), false), Memory(At(p), i))
  }

  class StrictPriorityPolicy {
    const maxBatch: nat
    var lastPrio: Served
    var lastIdx: nat

    constructor (maxBatch: nat)
      ensures this.maxBatch == maxBatch && lastPrio == Nothing && lastIdx == 0
    {
      this.maxBatch := maxBatch;
      lastPrio := Nothing;
      lastIdx := 0;
    }

    /** The counting loop over one level. */
    method CountReady(queues: seq<QueueSnapshot>, p: Priority) returns (count: nat)
      ensures count > 0 <==> AnyReady(queues, Only(p))
    {
      count := 0;
      for i := 0 to |queues|
        invariant count > 0 <==> exists j :: 0 <= j < i && Ready(queues[j], Only(p))
      {
        if queues[i].priority == p && queues[i].count > 0 {
          count := count + 1;
        }
      }
    }

    method Decide(queues: seq<QueueSnapshot>) returns (d: Decision)
      modifies this
      ensures (d, Memory(lastPrio, lastIdx)) == Strict(old(Memory(lastPrio, lastIdx)), maxBatch, queues)
    {
      var n := |queues|;
      if n == 0 {
        return IDLE;
      }
      var prio := 0;
      while prio <= 3
        invariant prio <= 4 && lastPrio == old(lastPrio) && lastIdx == old(lastIdx)
        invariant BestFrom(queues, prio) == BestFrom(queues, 0)
      {
        var p := Level(prio);
        var count := CountReady(queues, p);
        if count > 0 {
          if lastPrio != At(p) {
            lastPrio := At(p);
            lastIdx := 0;
          }
          var o := 1;
          ScanFinds(queues, Only(p), lastIdx);
          while o <= n
            invariant 1 <= o <= n + 1 && lastPrio == At(p)
            invariant lastIdx == Base(old(Memory(lastPrio, lastIdx)), p)
            invariant Scan(queues, Only(p), lastIdx, o) == Scan(queues, Only(p), lastIdx, 1)
          {
            var i := (lastIdx + o) % n;
            if queues[i].priority == p && queues[i].count > 0 {
              lastIdx := i;
              return Decision(i, Min(queues[i].count, maxBatch), false);
            }
            o := o + 1;
          }
        }
        prio := prio + 1;
      }
      lastPrio := Nothing;
      lastIdx := 0;
      return IDLE;
    }
  }

  /** Strict priority serves a non-empty queue of the most urgent level that has work, and idles exactly when every
      queue is empty. */
  lemma StrictServesBest(m: Memory, maxBatch: nat, queues: seq<QueueSnapshot>)
    ensures var d := Strict(m, maxBatch, queues).0;
            && (d.idle <==> forall i :: 0 <= i < |queues| ==> queues[i].count == 0)
            && (!d.idle ==>
                  && d.queue < |queues| && queues[d.queue].count > 0 && d.batch == Min(queues[d.queue].count, maxBatch)
                  && forall i :: 0 <= i < |queues| && queues[i].count > 0 ==>
                       Rank(queues[d.queue].priority) <= Rank(queues[i].priority))
  {
    if queues != [] {
      var best := BestFrom(queues, 0);
      forall i | 0 <= i < |queues| && queues[i].count > 0
        ensures best <= Rank(queues[i].priority)
      {
        var r := Rank(queues[i].priority);
        assert Level(r) == queues[i].priority && Ready(queues[i], Only(Level(r)));
        assert AnyReady(queues, Only(Level(r)));
      }
      if best <= 3 {
        var p := Level(best);
        ScanFinds(queues, Only(p), Base(m, p));
        assert Rank(p) == best;
      }
    }
  }

  function StrictRun(m: Memory, maxBatch: nat, snaps: seq<seq<QueueSnapshot>>): (ds: seq<Decision>)
    ensures |ds| == |snaps|
    decreases |snaps|
  {
    if snaps == [] then []
    else
      var (d, m') := Strict(m, maxBatch, snaps[0]);
      [d] + StrictRun(m', maxBatch, snaps[1..])
  }

  /** An idle decision makes the policy forget where it was, unless there were no queues at all: what follows does not
      depend on the memory before. */
  lemma StrictIdleForgets(m: Memory, maxBatch: nat, snaps: seq<seq<QueueSnapshot>>)
    requires snaps != [] && AllEmpty(snaps[0])
    ensures StrictRun(m, maxBatch, snaps)
         == [IDLE] + StrictRun(if snaps[0] == [] then m else Memory(Nothing, 0), maxBatch, snaps[1..])
  {
    StrictServesBest(m, maxBatch, snaps[0]);
  }

  /** A queue that is non-empty throughout is served within n consecutive decisions that go to its own level. */
  lemma {:induction false} StrictBoundedWait(m: Memory, maxBatch: nat, snaps: seq<seq<QueueSnapshot>>, n: nat, q: nat,
                                             p: Priority)
    requires q < n && |snaps| >= Distance(Base(m, p), q, n)
    requires forall k :: 0 <= k < |snaps| ==>
               && |snaps[k]| == n && snaps[k][q].count > 0 && snaps[k][q].priority == p
               && BestFrom(snaps[k], 0) == Rank(p)
    ensures exists k :: 0 <= k < Distance(Base(m, p), q, n) && StrictRun(m, maxBatch, snaps)[k].queue == q
                        && !StrictRun(m, maxBatch, snaps)[k].idle
    decreases |snaps|
  {
    assert Level(Rank(p)) == p;
    ScanComesCloser(snaps[0], Only(p), Base(m, p), q);
    var (d, m') := Strict(m, maxBatch, snaps[0]);
    var ds := StrictRun(m, maxBatch, snaps);
    assert ds[0] == d;
    if d.queue != q {
      StrictBoundedWait(m', maxBatch, snaps[1..], n, q, p);
      var k :| 0 <= k < Distance(Base(m', p), q, n) && StrictRun(m', maxBatch, snaps[1..])[k].queue == q
               && !StrictRun(m', maxBatch, snaps[1..])[k].idle;
      assert ds[k + 1] == StrictRun(m', maxBatch, snaps[1..])[k];
    }
  }
}
