/** timer.h and the thread loop of timer.cc: the per-worker timer heap, and the shared timer wheel whose thread sleeps
    on a condition variable until the earliest deadline while any number of threads insert timers. */
module Timers {
  import opened Common

  /** `id` numbers the insertions. */
  datatype TimerNode = TimerNode(id: nat, deadline: int)

  /** TimePoint::max(). */
  const MAX: int := 0x7FFF_FFFF_FFFF_FFFF

  function Due(q: seq<TimerNode>, now: int): seq<TimerNode> {
    if q == [] then [] else (if q[0].deadline <= now then [q[0]] else []) + Due(q[1..], now)
  }

  function Rest(q: seq<TimerNode>, now: int): seq<TimerNode> {
    if q == [] then [] else (if q[0].deadline <= now then [] else [q[0]]) + Rest(q[1..], now)
  }

  predicate Sorted(q: seq<TimerNode>) {
    forall i, j :: 0 <= i < j < |q| ==> q[i].deadline <= q[j].deadline
  }

  /** `batch` is a legal answer of expire(now): exactly the due timers, earliest first. */
  predicate IsExpiry(q: seq<TimerNode>, now: int, batch: seq<TimerNode>) {
    multiset(batch) == multiset(Due(q, now)) && Sorted(batch)
  }

  lemma {:induction false} DueOrRest(q: seq<TimerNode>, now: int)
    ensures multiset(Due(q, now)) + multiset(Rest(q, now)) == multiset(q)
    ensures forall x :: x in Due(q, now) <==> x in q && x.deadline <= now
    ensures forall x :: x in Rest(q, now) <==> x in q && x.deadline > now
  {
    if q != [] {
      DueOrRest(q[1..], now);
      assert q == [q[0]] + q[1..];
    }
  }

  /** A split of a heap into timers that are due and timers that are not is the split by Due and Rest. */
  lemma SplitIsUnique(q: seq<TimerNode>, now: int, due: seq<TimerNode>, rest: seq<TimerNode>)
    requires multiset(due) + multiset(rest) == multiset(q)
    requires forall x :: x in due ==> x.deadline <= now
    requires forall x :: x in rest ==> x.deadline > now
    ensures multiset(due) == multiset(Due(q, now)) && multiset(rest) == multiset(Rest(q, now))
  {
    DueOrRest(q, now);
    forall x
      ensures multiset(due)[x] == multiset(Due(q, now))[x] && multiset(rest)[x] == multiset(Rest(q, now))[x]
    {
      assert multiset(due)[x] + multiset(rest)[x] == multiset(q)[x];
      assert multiset(Due(q, now))[x] + multiset(Rest(q, now))[x] == multiset(q)[x];
      if x.deadline <= now {
        assert x !in rest && x !in Rest(q, now);
      } else {
        assert x !in due && x !in Due(q, now);
      }
    }
  }

  lemma OneMoved(expired: seq<TimerNode>, before: seq<TimerNode>, after: seq<TimerNode>, x: TimerNode)
    requires multiset(before) == multiset(after) + multiset{x}
    ensures multiset(expired + [x]) + multiset(after) == multiset(expired) + multiset(before)
    ensures forall y :: y in after ==> y in before
  {
    assert forall y :: y in after ==> y in multiset(before);
  }

  /** WorkerTimerState; std::priority_queue is a bag of nodes whose top is any node with the least deadline. */
  class TimerHeap {
    var pending: seq<TimerNode>

    constructor ()
      ensures pending == []
    {
      pending := [];
    }

    method Insert(node: TimerNode)
      modifies this
      ensures pending == old(pending) + [node]
    {
      pending := pending + [node];
    }

    method Top() returns (i: nat)
      requires pending != []
      ensures IsLeast(pending, i)
    {
      ghost var j := LeastExists(pending);
      i :| IsLeast(pending, i);
    }

    method Pop(i: nat)
      requires IsLeast(pending, i)
      modifies this
      ensures pending == old(pending)[..i] + old(pending)[i + 1..]
      ensures multiset(old(pending)) == multiset(pending) + multiset{old(pending)[i]}
    {
      assert pending == pending[..i] + [pending[i]] + pending[i + 1..];
      pending := pending[..i] + pending[i + 1..];
    }

    method Expire(now: int) returns (expired: seq<TimerNode>)
      modifies this
      ensures IsExpiry(old(pending), now, expired)
      ensures multiset(pending) == multiset(Rest(old(pending), now))
    {
      expired := [];
      while pending != []
        invariant multiset(expired) + multiset(pending) == multiset(old(pending))
        invariant Sorted(expired) && forall x :: x in expired ==> x.deadline <= now
        invariant expired != [] ==> forall y :: y in pending ==> expired[|expired| - 1].deadline <= y.deadline
        decreases |pending|
      {
        var i := Top();
        var x := pending[i];
        if x.deadline > now {
          break;
        }
        ghost var before := pending;
        Pop(i);
        OneMoved(expired, before, pending, x);
        expired := expired + [x];
      }
      SplitIsUnique(old(pending), now, expired, pending);
    }

    method NextDeadline() returns (t: int)
      ensures t == Earliest(pending)
    {
      if pending == [] {
        t := MAX;
      } else {
        var i := Top();
        t := pending[i].deadline;
        EarliestIsLeast(pending);
      }
    }
  }

  predicate IsLeast(q: seq<TimerNode>, i: nat) {
    i < |q| && forall x :: x in q ==> q[i].deadline <= x.deadline
  }

  lemma {:induction false} LeastExists(q: seq<TimerNode>) returns (i: nat)
    requires q != []
    ensures IsLeast(q, i)
  {
    var m := |q| - 1;
    assert q == q[..m] + [q[m]];
    if m == 0 {
      i := 0;
    } else {
      i := LeastExists(q[..m]);
      if q[m].deadline < q[i].deadline {
        i := m;
      }
    }
  }

  /** The earliest pending deadline, or MAX. */
  function Earliest(q: seq<TimerNode>): int {
    if q == [] then MAX
    else if |q| == 1 then q[0].deadline
    else
      var e := Earliest(q[..|q| - 1]);
      if q[|q| - 1].deadline < e then q[|q| - 1].deadline else e
  }

  lemma {:induction false} EarliestIsLeast(q: seq<TimerNode>)
    requires q != []
    ensures forall x :: x in q ==> Earliest(q) <= x.deadline
    ensures exists x :: x in q && Earliest(q) == x.deadline
  {
    if |q| == 1 {
      assert q[0] in q;
    } else {
      var m := |q| - 1;
      EarliestIsLeast(q[..m]);
      assert q == q[..m] + [q[m]];
      if q[m].deadline < Earliest(q[..m]) {
        assert q[m] in q;
      } else {
        var x :| x in q[..m] && Earliest(q[..m]) == x.deadline;
        assert x in q;
      }
    }
  }

  // ---- The shared wheel and its thread --------------------------------------------------------------

  /** Asleep until a time, or, when the heap was empty, without a limit. */
  datatype ThreadAt = TNow | TExpire(now: int) | TSleep | Sleeping(wake: Option<int>)

  datatype InserterAt = IIdle | INotify(needWake: bool)

  /** History: everything inserted and everything expire has returned. */
  datatype State = State(clock: int, pending: seq<TimerNode>, thread: ThreadAt, inserters: seq<InserterAt>,
                         inserted: seq<TimerNode>, returned: seq<TimerNode>)

  datatype Action =
    | Tick(d: nat)
    | Insert(k: nat, deadline: int)
    | RunInserter(k: nat)
    | RunThread(batch: seq<TimerNode>)
    | WakeUp

  /** A locked section is one step.  RunThread carries the batch an expire returns; WakeUp is a timeout or a spurious
      wakeup of the condition wait. */
  function Step(s: State, a: Action): State {
    match a
    case Tick(d) => s.(clock := s.clock + d)
    case Insert(k, deadline) =>
      if k < |s.inserters| && s.inserters[k].IIdle? && deadline <= MAX then
        var node := TimerNode(|s.inserted|, deadline);
        var pending := s.pending + [node];
        s.(pending := pending, inserted := s.inserted + [node],
           inserters := s.inserters[k := INotify(Earliest(pending) < Earliest(s.pending))])
      else s
    case RunInserter(k) =>
      if k < |s.inserters| && s.inserters[k].INotify? then
        s.(inserters := s.inserters[k := IIdle],
           thread := if s.inserters[k].needWake && s.thread.Sleeping? then TNow else s.thread)
      else s
    case RunThread(batch) =>
      (match s.thread
       case TNow => s.(thread := TExpire(s.clock))
       case TExpire(now) =>
         if IsExpiry(s.pending, now, batch) then
           s.(pending := Rest(s.pending, now), returned := s.returned + batch, thread := TSleep)
         else s
       case TSleep => s.(thread := Sleeping(if s.pending == [] then None else Some(Earliest(s.pending))))
       case Sleeping(_) => s)
    case WakeUp => if s.thread.Sleeping? then s.(thread := TNow) else s
  }

  function Init(clock: int, inserterCount: nat): State {
    State(clock, [], TNow, seq(inserterCount, _ => IIdle), [], [])
  }

  function Exec(s: State, run: seq<Action>): State {
    if run == [] then s else Step(Exec(s, run[..|run| - 1]), run[|run| - 1])
  }

  /** Some insert has put a new earliest deadline in and has yet to call notify_one. */
  predicate Owed(s: State) {
    exists k :: 0 <= k < |s.inserters| && s.inserters[k] == INotify(true)
  }

  /** Every inserted timer is returned or pending, none twice, and none was returned early. */
  predicate Ledger(s: State) {
    && multiset(s.returned) + multiset(s.pending) == multiset(s.inserted)
    && (forall i :: 0 <= i < |s.inserted| ==> s.inserted[i].id == i)
    && (forall x :: x in s.returned ==> x.deadline <= s.clock)
  }

  /** A sleep that ends by `earliest`, or one without a limit when nothing is due before the end of time. */
  predicate InTime(wake: Option<int>, earliest: int) {
    if wake.Some? then wake.value <= earliest else earliest >= MAX
  }

  predicate Inv(s: State) {
    && (s.thread.Sleeping? ==> InTime(s.thread.wake, Earliest(s.pending)) || Owed(s))
    && (s.thread.TExpire? ==> s.thread.now <= s.clock)
    && Ledger(s)
  }

  lemma EarliestAfterInsert(q: seq<TimerNode>, node: TimerNode)
    requires node.deadline <= MAX
    ensures Earliest(q + [node]) == if node.deadline < Earliest(q) then node.deadline else Earliest(q)
  {
    assert (q + [node])[..|q|] == q;
  }

  lemma InsertLedger(s: State, k: nat, deadline: int)
    requires Ledger(s) && k < |s.inserters| && s.inserters[k].IIdle? && deadline <= MAX
    ensures Ledger(Step(s, Insert(k, deadline)))
  {
  }

  lemma InsertKept(s: State, k: nat, deadline: int)
    requires Inv(s) && k < |s.inserters| && s.inserters[k].IIdle? && deadline <= MAX
    ensures Inv(Step(s, Insert(k, deadline)))
  {
    var s' := Step(s, Insert(k, deadline));
    var node := TimerNode(|s.inserted|, deadline);
    InsertLedger(s, k, deadline);
    EarliestAfterInsert(s.pending, node);
    OwedKept(s, s', k);
    assert s'.inserters[k] == INotify(node.deadline < Earliest(s.pending));
  }

  lemma ExpireLedger(s: State, batch: seq<TimerNode>)
    requires Ledger(s) && s.thread.TExpire? && s.thread.now <= s.clock && IsExpiry(s.pending, s.thread.now, batch)
    ensures Ledger(Step(s, RunThread(batch)))
  {
    DueOrRest(s.pending, s.thread.now);
    BatchIsDue(s.pending, s.thread.now, batch);
  }

  lemma ExpireKept(s: State, batch: seq<TimerNode>)
    requires Inv(s) && s.thread.TExpire?
    ensures Inv(Step(s, RunThread(batch)))
  {
    if IsExpiry(s.pending, s.thread.now, batch) {
      ExpireLedger(s, batch);
    }
  }

  lemma StepKept(s: State, a: Action)
    requires Inv(s)
    ensures Inv(Step(s, a))
  {
    var s' := Step(s, a);
    if a.Insert? && s' != s {
      InsertKept(s, a.k, a.deadline);
    } else if a.RunInserter? && s' != s && s'.thread.Sleeping? {
      OwedKept(s, s', a.k);
    } else if a.RunThread? && s.thread.TExpire? {
      ExpireKept(s, a.batch);
    }
  }

  lemma BatchIsDue(q: seq<TimerNode>, now: int, batch: seq<TimerNode>)
    requires IsExpiry(q, now, batch)
    ensures forall x :: x in batch <==> x in q && x.deadline <= now
  {
    DueOrRest(q, now);
    assert forall x :: x in batch <==> x in multiset(batch);
    assert forall x :: x in Due(q, now) <==> x in multiset(Due(q, now));
  }

  lemma OwedKept(s: State, s': State, k: nat)
    requires k < |s.inserters| && s.inserters[k] != INotify(true)
    requires |s'.inserters| == |s.inserters| &&
             forall j :: 0 <= j < |s.inserters| && j != k ==> s'.inserters[j] == s.inserters[j]
    ensures Owed(s) ==> Owed(s')
  {
    if Owed(s) {
      var j :| 0 <= j < |s.inserters| && s.inserters[j] == INotify(true);
      assert s'.inserters[j] == INotify(true);
    }
  }

  lemma {:induction false} RunKept(s: State, run: seq<Action>)
    requires Inv(s)
    ensures Inv(Exec(s, run))
  {
    if run != [] {
      RunKept(s, run[..|run| - 1]);
      StepKept(Exec(s, run[..|run| - 1]), run[|run| - 1]);
    }
  }

  // ---- Main results ---------------------------------------------------------------------------------

  /** The sleeping thread will wake by the deadline of x, or an insert still owes it a notify. */
  predicate Attended(s: State, x: TimerNode)
    requires s.thread.Sleeping?
  {
    (s.thread.wake.Some? && s.thread.wake.value <= x.deadline) || Owed(s)
  }

  /** Whenever the timer thread sleeps, every pending timer is attended to, except that a sleep begun on an empty heap
      has no limit and ignores timers with the last deadline there is. */
  lemma NeverOversleeps(clock: int, inserterCount: nat, run: seq<Action>, x: TimerNode)
    ensures var s := Exec(Init(clock, inserterCount), run);
            s.thread.Sleeping? && x in s.pending && (x.deadline < MAX || s.thread.wake.Some?) ==> Attended(s, x)
  {
    RunKept(Init(clock, inserterCount), run);
    var s := Exec(Init(clock, inserterCount), run);
    if x in s.pending {
      EarliestIsLeast(s.pending);
    }
  }

  /** Every pending timer with the given deadline is attended to. */
  predicate Watched(clock: int, inserterCount: nat, run: seq<Action>, deadline: int) {
    var s := Exec(Init(clock, inserterCount), run);
    forall x :: s.thread.Sleeping? && x in s.pending && x.deadline == deadline ==> Attended(s, x)
  }

  lemma OneMore(s0: State, run: seq<Action>, a: Action)
    ensures Exec(s0, run + [a]) == Step(Exec(s0, run), a)
  {
    assert (run + [a])[..|run|] == run;
  }

  /** The thread goes to sleep on an empty heap. */
  lemma SleepsOnEmpty(clock: int, inserterCount: nat) returns (run: seq<Action>)
    ensures Exec(Init(clock, inserterCount), run) == Init(clock, inserterCount).(thread := Sleeping(None))
  {
    var s0, r := Init(clock, inserterCount), RunThread([]);
    OneMore(s0, [], r);
    OneMore(s0, [] + [r], r);
    OneMore(s0, [] + [r] + [r], r);
    run := [] + [r] + [r] + [r];
    var s1 := s0.(thread := TExpire(clock));
    assert Step(s0, r) == s1;
    assert IsExpiry([], clock, []);
    assert Step(s1, r) == s0.(thread := TSleep);
  }

  /** ... and a timer with the last deadline does not wake it. */
  lemma LastDeadlineUnwatched(clock: int, inserterCount: nat) returns (run: seq<Action>)
    requires inserterCount > 0
    ensures !Watched(clock, inserterCount, run, MAX)
  {
    var s0 := Init(clock, inserterCount);
    run := SleepsOnEmpty(clock, inserterCount);
    var s := Exec(s0, run);
    OneMore(s0, run, Insert(0, MAX));
    OneMore(s0, run + [Insert(0, MAX)], RunInserter(0));
    run := run + [Insert(0, MAX)] + [RunInserter(0)];
    var node := TimerNode(0, MAX);
    EarliestAfterInsert([], node);
    assert [] + [node] == [node];
    var s' := Exec(s0, run);
    assert node in s'.pending && s'.thread == Sleeping(None) && !Owed(s');
  }

  /** Timers of a deadline are attended to in all runs exactly when that deadline is before the last there is. */
  lemma WatchedIff(clock: int, inserterCount: nat, deadline: int)
    requires inserterCount > 0 && deadline <= MAX
    ensures (forall run :: Watched(clock, inserterCount, run, deadline)) <==> deadline < MAX
  {
    if deadline < MAX {
      forall run
        ensures Watched(clock, inserterCount, run, deadline)
      {
        var s := Exec(Init(clock, inserterCount), run);
        forall x | s.thread.Sleeping? && x in s.pending && x.deadline == deadline
          ensures Attended(s, x)
        {
          NeverOversleeps(clock, inserterCount, run, x);
        }
      }
    } else {
      var run := LastDeadlineUnwatched(clock, inserterCount);
    }
  }

  /** Every inserted timer is returned at most once and never before its deadline, and one not yet returned is still
      pending: none is lost. */
  lemma EachTimerOnce(clock: int, inserterCount: nat, run: seq<Action>, i: nat)
    ensures var s := Exec(Init(clock, inserterCount), run);
            i < |s.inserted| ==>
              && multiset(s.returned)[s.inserted[i]] + multiset(s.pending)[s.inserted[i]] == 1
              && (s.inserted[i] in s.returned ==> s.inserted[i].deadline <= s.clock)
  {
    RunKept(Init(clock, inserterCount), run);
    var s := Exec(Init(clock, inserterCount), run);
    if i < |s.inserted| {
      DistinctIds(s.inserted, (x: TimerNode) => x.id, i);
    }
  }

  /** An expire that reads `now` hands back every timer inserted before it whose deadline is not after `now`. */
  lemma DueIsReturned(clock: int, inserterCount: nat, run: seq<Action>, batch: seq<TimerNode>, x: TimerNode)
    ensures var s := Exec(Init(clock, inserterCount), run);
            s.thread.TExpire? && IsExpiry(s.pending, s.thread.now, batch) &&
            x in s.inserted && x.deadline <= s.thread.now ==>
              var s' := Step(s, RunThread(batch)); x in s'.returned && x !in s'.pending
  {
    var s := Exec(Init(clock, inserterCount), run);
    RunKept(Init(clock, inserterCount), run);
    if s.thread.TExpire? && IsExpiry(s.pending, s.thread.now, batch) && x in s.inserted && x.deadline <= s.thread.now {
      ExpireReturns(s, batch, x);
    }
  }

  lemma ExpireReturns(s: State, batch: seq<TimerNode>, x: TimerNode)
    requires Inv(s) && s.thread.TExpire? && IsExpiry(s.pending, s.thread.now, batch)
    requires x in s.inserted && x.deadline <= s.thread.now
    ensures var s' := Step(s, RunThread(batch)); x in s'.returned && x !in s'.pending && s'.thread.TSleep?
  {
    InsertedIsSomewhere(s, x);
    DueOrRest(s.pending, s.thread.now);
    BatchIsDue(s.pending, s.thread.now, batch);
  }

  lemma InsertedIsSomewhere(s: State, x: TimerNode)
    requires Ledger(s) && x in s.inserted
    ensures x in s.returned || x in s.pending
  {
    assert x in multiset(s.returned) + multiset(s.pending);
  }

  /** Some answer of expire is legal for every heap and time, so the thread is never stuck there. */
  lemma ExpiryExists(q: seq<TimerNode>, now: int) returns (batch: seq<TimerNode>)
    ensures IsExpiry(q, now, batch)
  {
    batch := SortedCopy(Due(q, now));
  }

  lemma {:induction false} SortedCopy(q: seq<TimerNode>) returns (r: seq<TimerNode>)
    ensures multiset(r) == multiset(q) && Sorted(r)
    decreases |q|
  {
    if q == [] {
      r := [];
    } else {
      var i := LeastExists(q);
      var rest := q[..i] + q[i + 1..];
      assert q == q[..i] + [q[i]] + q[i + 1..];
      var tail := SortedCopy(rest);
      r := [q[i]] + tail;
      SortedCons(q[i], rest, tail);
    }
  }

  lemma SortedCons(x: TimerNode, q: seq<TimerNode>, tail: seq<TimerNode>)
    requires multiset(tail) == multiset(q) && Sorted(tail)
    requires forall y :: y in q ==> x.deadline <= y.deadline
    ensures Sorted([x] + tail)
  {
    forall j | 0 <= j < |tail|
      ensures x.deadline <= tail[j].deadline
    {
      assert tail[j] in multiset(tail);
    }
  }

  // ---- One round of the thread ------------------------------------------------------------------------------

  lemma OthersWait(s: State, a: Action)
    requires s.thread.TExpire? && !a.RunThread?
    ensures Step(s, a).thread == s.thread && s.inserted <= Step(s, a).inserted
  {
  }

  /** Others' steps between the clock reading and the expire. */
  lemma {:induction false} WaitsForExpire(s0: State, run: seq<Action>, mid: seq<Action>)
    requires Exec(s0, run).thread.TExpire? && forall i :: 0 <= i < |mid| ==> !mid[i].RunThread?
    ensures var s, s' := Exec(s0, run), Exec(s0, run + mid);
            s'.thread == s.thread && s.inserted <= s'.inserted
  {
    if mid == [] {
      assert run + mid == run;
    } else {
      var m := |mid| - 1;
      WaitsForExpire(s0, run, mid[..m]);
      assert run + mid == run + mid[..m] + [mid[m]];
      OneMore(s0, run + mid[..m], mid[m]);
      OthersWait(Exec(s0, run + mid[..m]), mid[m]);
    }
  }

  lemma ReadsClock(s: State, first: seq<TimerNode>)
    requires s.thread.TNow?
    ensures Step(s, RunThread(first)).thread == TExpire(s.clock) && Step(s, RunThread(first)).inserted == s.inserted
  {
  }

  lemma BeginsRound(s0: State, run: seq<Action>, first: seq<TimerNode>, mid: seq<Action>)
    requires Exec(s0, run).thread.TNow? && forall i :: 0 <= i < |mid| ==> !mid[i].RunThread?
    ensures var s, t := Exec(s0, run), Exec(s0, run + [RunThread(first)] + mid);
            t.thread == TExpire(s.clock) && s.inserted <= t.inserted
  {
    ReadsClock(Exec(s0, run), first);
    OneMore(s0, run, RunThread(first));
    WaitsForExpire(s0, run + [RunThread(first)], mid);
  }

  /** A timer whose deadline has come when the thread begins a round has been handed back at the end of its expire,
      whatever others do in between. */
  lemma RoundReturnsDue(clock: int, inserterCount: nat, run: seq<Action>, first: seq<TimerNode>, mid: seq<Action>,
                        batch: seq<TimerNode>, x: TimerNode)
    requires var s := Exec(Init(clock, inserterCount), run);
             s.thread.TNow? && x in s.inserted && x.deadline <= s.clock
    requires forall i :: 0 <= i < |mid| ==> !mid[i].RunThread?
    ensures var t := Exec(Init(clock, inserterCount), run + [RunThread(first)] + mid);
            && t.thread.TExpire?
            && (IsExpiry(t.pending, t.thread.now, batch) ==>
                  x in Step(t, RunThread(batch)).returned && Step(t, RunThread(batch)).thread.TSleep?)
  {
    var s0, run' := Init(clock, inserterCount), run + [RunThread(first)] + mid;
    BeginsRound(s0, run, first, mid);
    RunKept(s0, run');
    RoundFrom(Exec(s0, run), Exec(s0, run'), batch, x);
  }

  lemma RoundFrom(s: State, t: State, batch: seq<TimerNode>, x: TimerNode)
    requires x in s.inserted && x.deadline <= s.clock
    requires Inv(t) && t.thread == TExpire(s.clock) && s.inserted <= t.inserted
    ensures IsExpiry(t.pending, t.thread.now, batch) ==>
              x in Step(t, RunThread(batch)).returned && Step(t, RunThread(batch)).thread.TSleep?
  {
    if IsExpiry(t.pending, t.thread.now, batch) {
      ExpireReturns(t, batch, x);
    }
  }

  /** After its expire the thread sleeps, without a limit exactly if nothing is pending, and otherwise until the
      earliest pending deadline. */
  lemma SleepsUntilEarliest(s: State, batch: seq<TimerNode>)
    requires s.thread.TSleep?
    ensures var s' := Step(s, RunThread(batch));
            && s' == s.(thread := s'.thread) && s'.thread.Sleeping?
            && (s'.thread.wake.None? <==> s.pending == [])
            && (s'.thread.wake.Some? ==>
                  && (forall x :: x in s.pending ==> s'.thread.wake.value <= x.deadline)
                  && exists x :: x in s.pending && s'.thread.wake.value == x.deadline)
  {
    if s.pending != [] {
      EarliestIsLeast(s.pending);
    }
  }

  predicate AllLater(q: seq<TimerNode>, deadline: int) { forall x :: x in q ==> deadline < x.deadline }

  /** An undisturbed insert makes its timer pending, and wakes a sleeping thread exactly if the new deadline is before
      every pending one (or, when none is pending, before the last there is). */
  lemma InsertAlone(s: State, k: nat, deadline: int)
    requires k < |s.inserters| && s.inserters[k].IIdle? && deadline <= MAX
    ensures var s', x := Step(Step(s, Insert(k, deadline)), RunInserter(k)), TimerNode(|s.inserted|, deadline);
            && s'.pending == s.pending + [x] && s'.inserted == s.inserted + [x] && s'.returned == s.returned
            && s'.inserters == s.inserters
            && (s.thread.Sleeping? ==>
                  s'.thread == if AllLater(s.pending, deadline) && (s.pending == [] ==> deadline < MAX) then TNow
                               else s.thread)
            && (!s.thread.Sleeping? ==> s'.thread == s.thread)
  {
    var x := TimerNode(|s.inserted|, deadline);
    EarliestAfterInsert(s.pending, x);
    if s.pending == [] {
      assert AllLater(s.pending, deadline);
    } else {
      EarliestIsLeast(s.pending);
    }
    assert s.inserters[k := INotify(deadline < Earliest(s.pending))][k := IIdle] == s.inserters;
  }

  /** A timeout of the sleep, or a spurious wakeup, begins the next round. */
  lemma WakeBeginsRound(s: State)
    requires s.thread.Sleeping?
    ensures Step(s, WakeUp) == s.(thread := TNow)
  {
  }
}
