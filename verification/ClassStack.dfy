/** SizeClassFreeList of memory_pool.cc: the linked stack of free objects of one size class, pushed and popped by
    compare-exchange.  A pop reads the link of a node it does not own; with one popping thread that node cannot leave
    the stack in between, with two it can leave, be reused and come back. */
module ClassStack {
  import opened Common

  /** Who has a node: a client, the stack, or the thread working on it. */
  datatype Owner = Outside | OnStack | Held(t: nat)

  /** `owner` is history. */
  datatype Mem = Mem(next: Ref, owner: Owner)

  datatype ThreadAt = Idle | PushLoad | PushCas | PopLoad | PopRead | PopCas

  /** `node` is the node being pushed, `seen` the head last read, `next` the link a pop has read. */
  datatype Thread = Thread(at: ThreadAt, node: nat, seen: Ref, next: Ref, found: Option<nat>)

  /** `popper` is the only thread allowed to pop, if there is such a rule.  `stack` is history. */
  datatype State = State(head: Ref, nodes: seq<Mem>, threads: seq<Thread>, popper: Option<nat>, stack: seq<nat>)

  datatype Action =
    | CallPush(t: nat, n: nat)
    | CallPop(t: nat)
    | Run(t: nat, spurious: bool)
    | Return(t: nat)
    | Scribble(t: nat, n: nat, next: Ref)

  function Goto(s: State, t: nat, th: Thread): State
    requires t < |s.threads|
  {
    s.(threads := s.threads[t := th])
  }

  function SetNode(s: State, n: nat, m: Mem): State { if n < |s.nodes| then s.(nodes := s.nodes[n := m]) else s }

  /** The head of the push loop: link the node to the head just read. */
  function AimPush(s: State, t: nat): State
    requires t < |s.threads|
  {
    var th := s.threads[t];
    Goto(if th.node < |s.nodes| then SetNode(s, th.node, s.nodes[th.node].(next := s.head)) else s, t,
         th.(at := PushCas, seen := s.head))
  }

  /** The head of the pop loop: give up on an empty stack. */
  function AimPop(s: State, t: nat): State
    requires t < |s.threads|
  {
    var th := s.threads[t];
    Goto(s, t, if s.head.Null? then th.(at := Idle) else th.(at := PopRead, seen := s.head))
  }

  function ThreadStep(s: State, t: nat, spurious: bool): State
    requires t < |s.threads|
  {
    var th := s.threads[t];
    match th.at
    case Idle => s
    case PushLoad => AimPush(s, t)
    case PushCas =>
      if spurious || s.head != th.seen || th.node >= |s.nodes| then AimPush(s, t)
      else
        SetNode(Goto(s, t, th.(at := Idle)), th.node, s.nodes[th.node].(owner := OnStack)).(
          head := Node(th.node), stack := [th.node] + s.stack)
    case PopLoad => AimPop(s, t)
    case PopRead =>
      if th.seen.Null? || th.seen.n >= |s.nodes| then s
      else Goto(s, t, th.(at := PopCas, next := s.nodes[th.seen.n].next))
    case PopCas =>
      if th.seen.Null? || th.seen.n >= |s.nodes| then s
      else if spurious || s.head != th.seen then AimPop(s, t)
      else
        SetNode(Goto(s, t, th.(at := Idle, found := Some(th.seen.n))), th.seen.n,
                s.nodes[th.seen.n].(owner := Held(t))).(
          head := th.next, stack := if s.stack == [] then [] else s.stack[1..])
  }

  predicate MayPop(s: State, t: nat) { s.popper.None? || s.popper == Some(t) }

  /** A push needs a node its caller owns; a pop's result goes to its caller when the call returns.  The memory of a
      node that a client owns may be overwritten at any time. */
  function Step(s: State, a: Action): (s': State)
    ensures |s'.threads| == |s.threads| && |s'.nodes| == |s.nodes| && s'.popper == s.popper
  {
    if a.t >= |s.threads| then s
    else
      var th := s.threads[a.t];
      match a
      case CallPush(t, n) =>
        if th.at.Idle? && th.found.None? && n < |s.nodes| && s.nodes[n].owner.Outside? then
          SetNode(Goto(s, t, th.(at := PushLoad, node := n)), n, s.nodes[n].(owner := Held(t)))
        else s
      case CallPop(t) =>
        if th.at.Idle? && th.found.None? && MayPop(s, t) then Goto(s, t, th.(at := PopLoad)) else s
      case Run(t, spurious) => ThreadStep(s, t, spurious)
      case Return(t) =>
        if th.at.Idle? && th.found.Some? && th.found.value < |s.nodes| then
          SetNode(Goto(s, t, th.(found := None)), th.found.value, s.nodes[th.found.value].(owner := Outside))
        else s
      case Scribble(t, n, next) =>
        if n < |s.nodes| && s.nodes[n].owner.Outside? then SetNode(s, n, Mem(next, Outside)) else s
  }

  const IDLE: Thread := Thread(Idle, 0, Null, Null, None)

  function Init(nodeCount: nat, threadCount: nat, popper: Option<nat>): State {
    State(Null, seq(nodeCount, _ => Mem(Null, Outside)), seq(threadCount, _ => IDLE), popper, [])
  }

  function Exec(s: State, run: seq<Action>): (s': State)
    ensures |s'.threads| == |s.threads| && |s'.nodes| == |s.nodes| && s'.popper == s.popper
  {
    if run == [] then s else Step(Exec(s, run[..|run| - 1]), run[|run| - 1])
  }

  // ---- What every run with one popping thread keeps -----------------------------------------------------

  predicate Popping(th: Thread) { th.at.PopLoad? || th.at.PopRead? || th.at.PopCas? }

  predicate Pushing(th: Thread) { th.at.PushLoad? || th.at.PushCas? }

  /** At most one thread pops. */
  predicate Disciplined(popper: Option<nat>, threadCount: nat) { popper.Some? || threadCount < 2 }

  /** Following the links from the head visits exactly the distinct nodes of `stack`. */
  predicate StackOk(s: State) {
    && s.head == RefAt(s.stack, 0)
    && (forall i :: 0 <= i < |s.stack| ==>
          && s.stack[i] < |s.nodes| && s.nodes[s.stack[i]].owner.OnStack?
          && s.nodes[s.stack[i]].next == RefAt(s.stack, i + 1))
    && (forall i, j :: 0 <= i < j < |s.stack| ==> s.stack[i] != s.stack[j])
  }

  predicate ThreadOk(s: State, t: nat)
    requires t < |s.threads|
  {
    var th := s.threads[t];
    && (Pushing(th) ==> th.node < |s.nodes| && s.nodes[th.node].owner == Held(t) && th.found.None?)
    && (th.at.PushCas? ==> s.nodes[th.node].next == th.seen)
    && (Popping(th) ==> MayPop(s, t) && th.found.None?)
    && (th.at.PopRead? || th.at.PopCas? ==> th.seen.Node? && th.seen.n in s.stack && th.seen.n < |s.nodes|)
    && (th.at.PopCas? ==> th.next == s.nodes[th.seen.n].next)
    && (th.found.Some? ==> th.found.value < |s.nodes| && s.nodes[th.found.value].owner == Held(t))
  }

  predicate NodeOk(s: State, n: nat)
    requires n < |s.nodes|
  {
    match s.nodes[n].owner
    case Outside => true
    case OnStack => n in s.stack
    case Held(t) =>
      t < |s.threads| && ((Pushing(s.threads[t]) && s.threads[t].node == n) || s.threads[t].found == Some(n))
  }

  predicate Inv(s: State) {
    && Disciplined(s.popper, |s.threads|) && StackOk(s)
    && (forall t :: 0 <= t < |s.threads| ==> ThreadOk(s, t))
    && (forall n :: 0 <= n < |s.nodes| ==> NodeOk(s, n))
  }

  /** A step of `t` that changes only nodes `t` or nobody in the pool has, and no link on the stack. */
  predicate Private(s: State, s': State, t: nat) {
    && |s'.threads| == |s.threads| && |s'.nodes| == |s.nodes| && s'.popper == s.popper
    && s'.head == s.head && s'.stack == s.stack
    && (forall u :: 0 <= u < |s.threads| && u != t ==> s'.threads[u] == s.threads[u])
    && (forall n :: 0 <= n < |s.nodes| &&
                    (s.nodes[n].owner.OnStack? || (s.nodes[n].owner.Held? && s.nodes[n].owner.t != t)) ==>
          s'.nodes[n] == s.nodes[n])
  }

  lemma PrivateKept(s: State, s': State, t: nat)
    requires Inv(s) && t < |s.threads| && Private(s, s', t) && ThreadOk(s', t)
    requires forall n :: 0 <= n < |s.nodes| ==> NodeOk(s', n)
    ensures Inv(s')
  {
    forall u | 0 <= u < |s'.threads|
      ensures ThreadOk(s', u)
    {
      assert ThreadOk(s, u);
      if u != t && (s.threads[u].at.PopRead? || s.threads[u].at.PopCas?) {
        var i :| 0 <= i < |s.stack| && s.stack[i] == s.threads[u].seen.n;
        assert s.nodes[s.stack[i]].owner.OnStack?;
      }
    }
  }

  lemma OwnKept(s: State, a: Action)
    requires Inv(s) && a.t < |s.threads| && Private(s, Step(s, a), a.t)
    ensures Inv(Step(s, a))
  {
    var s' := Step(s, a);
    assert ThreadOk(s, a.t);
    OwnThread(s, a);
    OwnNodes(s, a);
    PrivateKept(s, s', a.t);
  }

  lemma OwnNodes(s: State, a: Action)
    requires Inv(s) && a.t < |s.threads| && Private(s, Step(s, a), a.t)
    ensures forall n :: 0 <= n < |s.nodes| ==> NodeOk(Step(s, a), n)
  {
    assert ThreadOk(s, a.t);
    forall n | 0 <= n < |s.nodes|
      ensures NodeOk(Step(s, a), n)
    {
      assert NodeOk(s, n);
      match a
      case CallPush(_, _) => CallNode(s, a, n);
      case CallPop(_) => CallNode(s, a, n);
      case Run(t, spurious) => RunNode(s, t, spurious, n);
      case _ => ReturnNode(s, a, n);
    }
  }

  /** Beginning a call. */
  lemma CallNode(s: State, a: Action, n: nat)
    requires a.t < |s.threads| && (a.CallPush? || a.CallPop?) && ThreadOk(s, a.t) && n < |s.nodes| && NodeOk(s, n)
    ensures NodeOk(Step(s, a), n)
  {
  }

  /** A step inside a call that does not change the stack. */
  lemma RunNode(s: State, t: nat, spurious: bool, n: nat)
    requires t < |s.threads| && ThreadOk(s, t) && n < |s.nodes| && NodeOk(s, n)
    requires ThreadStep(s, t, spurious).stack == s.stack
    ensures NodeOk(ThreadStep(s, t, spurious), n)
  {
  }

  /** Returning, or a client's write. */
  lemma ReturnNode(s: State, a: Action, n: nat)
    requires a.t < |s.threads| && (a.Return? || a.Scribble?) && ThreadOk(s, a.t) && n < |s.nodes| && NodeOk(s, n)
    ensures NodeOk(Step(s, a), n)
  {
  }

  lemma OwnThread(s: State, a: Action)
    requires Inv(s) && a.t < |s.threads| && Private(s, Step(s, a), a.t)
    ensures ThreadOk(Step(s, a), a.t)
  {
    assert ThreadOk(s, a.t);
    if a.Run? {
      if Popping(s.threads[a.t]) {
        OwnPop(s, a.t, a.spurious);
      } else {
        OwnPush(s, a.t, a.spurious);
      }
    }
  }

  lemma OwnPop(s: State, t: nat, spurious: bool)
    requires t < |s.threads| && StackOk(s) && ThreadOk(s, t) && Popping(s.threads[t])
    requires ThreadStep(s, t, spurious).stack == s.stack
    ensures ThreadOk(ThreadStep(s, t, spurious), t)
  {
    if s.head.Node? {
      assert s.head.n == s.stack[0];
    }
  }

  lemma OwnPush(s: State, t: nat, spurious: bool)
    requires t < |s.threads| && ThreadOk(s, t) && !Popping(s.threads[t])
    requires ThreadStep(s, t, spurious).stack == s.stack
    ensures ThreadOk(ThreadStep(s, t, spurious), t)
  {
  }

  lemma PushStack(s: State, t: nat)
    requires Inv(s) && t < |s.threads| && s.threads[t].at.PushCas? && s.head == s.threads[t].seen
    ensures StackOk(ThreadStep(s, t, false)) && s.threads[t].node !in s.stack
  {
    var s', n := ThreadStep(s, t, false), s.threads[t].node;
    assert ThreadOk(s, t);
    assert n !in s.stack;
    forall i | 0 <= i < |s'.stack|
      ensures s'.stack[i] < |s.nodes| && s'.nodes[s'.stack[i]].owner.OnStack?
      ensures s'.nodes[s'.stack[i]].next == RefAt(s'.stack, i + 1)
    {
      assert i > 0 ==> s'.stack[i] == s.stack[i - 1];
    }
  }

  lemma PushThreads(s: State, t: nat)
    requires Inv(s) && t < |s.threads| && s.threads[t].at.PushCas? && s.head == s.threads[t].seen
    ensures forall u :: 0 <= u < |s.threads| ==> ThreadOk(ThreadStep(s, t, false), u)
  {
    var s', n := ThreadStep(s, t, false), s.threads[t].node;
    assert ThreadOk(s, t);
    forall u | 0 <= u < |s.threads|
      ensures ThreadOk(s', u)
    {
      assert ThreadOk(s, u);
      assert forall m :: m in s.stack ==> m in s'.stack;
    }
  }

  lemma PushKept(s: State, t: nat)
    requires Inv(s) && t < |s.threads| && s.threads[t].at.PushCas? && s.head == s.threads[t].seen
    ensures Inv(ThreadStep(s, t, false))
  {
    var s' := ThreadStep(s, t, false);
    assert ThreadOk(s, t);
    PushStack(s, t);
    PushThreads(s, t);
    forall m | 0 <= m < |s.nodes|
      ensures NodeOk(s', m)
    {
      assert NodeOk(s, m);
    }
  }

  /** The node a pop is about to take is still on top, and its link is still the one read. */
  lemma PopKept(s: State, t: nat)
    requires Inv(s) && t < |s.threads| && s.threads[t].at.PopCas? && s.head == s.threads[t].seen
    ensures Inv(ThreadStep(s, t, false))
  {
    var s' := ThreadStep(s, t, false);
    assert ThreadOk(s, t);
    assert s.stack[0] == s.threads[t].seen.n;
    forall i | 0 <= i < |s'.stack|
      ensures s'.stack[i] < |s.nodes| && s'.nodes[s'.stack[i]].owner.OnStack?
      ensures s'.nodes[s'.stack[i]].next == RefAt(s'.stack, i + 1)
    {
      assert s'.stack[i] == s.stack[i + 1];
    }
    forall u | 0 <= u < |s'.threads|
      ensures ThreadOk(s', u)
    {
      assert ThreadOk(s, u);
    }
    PopNodes(s, t);
  }

  lemma PopNodes(s: State, t: nat)
    requires Inv(s) && t < |s.threads| && s.threads[t].at.PopCas? && s.head == s.threads[t].seen
    ensures forall m :: 0 <= m < |s.nodes| ==> NodeOk(ThreadStep(s, t, false), m)
  {
    assert ThreadOk(s, t);
    forall m | 0 <= m < |s.nodes|
      ensures NodeOk(ThreadStep(s, t, false), m)
    {
      assert NodeOk(s, m);
      assert m in s.stack && m != s.stack[0] ==> m in s.stack[1..];
    }
  }

  /** Whatever is not a successful compare-exchange is a thread's own business. */
  lemma IsPrivate(s: State, a: Action)
    requires a.t < |s.threads| && ThreadOk(s, a.t)
    requires var th := s.threads[a.t];
             !(a.Run? && (th.at.PushCas? || th.at.PopCas?) && !a.spurious && s.head == th.seen)
    ensures Private(s, Step(s, a), a.t)
  {
  }

  lemma StepKept(s: State, a: Action)
    requires Inv(s)
    ensures Inv(Step(s, a))
  {
    if a.t < |s.threads| {
      var th := s.threads[a.t];
      assert ThreadOk(s, a.t);
      if a.Run? && th.at.PushCas? && !a.spurious && s.head == th.seen {
        PushKept(s, a.t);
      } else if a.Run? && th.at.PopCas? && !a.spurious && s.head == th.seen {
        PopKept(s, a.t);
      } else {
        IsPrivate(s, a);
        OwnKept(s, a);
      }
    }
  }

  lemma {:induction false} RunKept(nodeCount: nat, threadCount: nat, popper: Option<nat>, run: seq<Action>)
    requires Disciplined(popper, threadCount)
    ensures Inv(Exec(Init(nodeCount, threadCount, popper), run))
  {
    if run != [] {
      RunKept(nodeCount, threadCount, popper, run[..|run| - 1]);
      StepKept(Exec(Init(nodeCount, threadCount, popper), run[..|run| - 1]), run[|run| - 1]);
    }
  }

  // ---- Two popping threads ---------------------------------------------------------------------------------

  /** The top of the stack is not a node somebody has taken. */
  predicate Sound(nodeCount: nat, threadCount: nat, popper: Option<nat>, run: seq<Action>) {
    var s := Exec(Init(nodeCount, threadCount, popper), run);
    s.head.Node? ==> s.head.n < |s.nodes| && s.nodes[s.head.n].owner.OnStack?
  }

  lemma OneMore(s0: State, run: seq<Action>, a: Action)
    ensures Exec(s0, run + [a]) == Step(Exec(s0, run), a)
  {
    assert (run + [a])[..|run|] == run;
  }

  /** Threads 0 and 1 at work on node 0 of a new stack. */
  function Pair(s0: State, head: Ref, m: Mem, t0: Thread, t1: Thread, stack: seq<nat>): State
    requires |s0.nodes| >= 1 && |s0.threads| >= 2
  {
    s0.(head := head, nodes := s0.nodes[0 := m], threads := s0.threads[0 := t0][1 := t1], stack := stack)
  }

  lemma PairParts(s0: State, m: Mem, m': Mem, t0: Thread, t1: Thread, th: Thread)
    requires |s0.nodes| >= 1 && |s0.threads| >= 2
    ensures s0.nodes[0 := m][0 := m'] == s0.nodes[0 := m']
    ensures s0.threads[0 := t0][1 := t1][0 := th] == s0.threads[0 := th][1 := t1]
    ensures s0.threads[0 := t0][1 := t1][1 := th] == s0.threads[0 := t0][1 := th]
  {
  }

  predicate FreshPair(s0: State) {
    |s0.nodes| >= 1 && |s0.threads| >= 2 && s0 == Init(|s0.nodes|, |s0.threads|, None)
  }

  const TOP: Ref := Node(0)

  function Pusher(at: ThreadAt, seen: Ref): Thread { Thread(at, 0, seen, Null, None) }

  /** Thread 0 pushes node 0 and begins a pop: it has read the head. */
  lemma PushAndLook(s0: State) returns (run: seq<Action>)
    requires FreshPair(s0)
    ensures Exec(s0, run) == Pair(s0, TOP, Mem(Null, OnStack), Pusher(PopRead, TOP), IDLE, [0])
  {
    var r := Run(0, false);
    var s1 := Pair(s0, Null, Mem(Null, Held(0)), Pusher(PushLoad, Null), IDLE, []);
    var s2 := Pair(s0, Null, Mem(Null, Held(0)), Pusher(PushCas, Null), IDLE, []);
    var s3 := Pair(s0, TOP, Mem(Null, OnStack), IDLE, IDLE, [0]);
    var s4 := Pair(s0, TOP, Mem(Null, OnStack), Pusher(PopLoad, Null), IDLE, [0]);
    assert s0.threads[0 := Pusher(PushLoad, Null)] == s1.threads;
    PairParts(s0, Mem(Null, Held(0)), Mem(Null, Held(0)), Pusher(PushLoad, Null), IDLE, Pusher(PushCas, Null));
    PairParts(s0, Mem(Null, Held(0)), Mem(Null, OnStack), Pusher(PushCas, Null), IDLE, IDLE);
    PairParts(s0, Mem(Null, OnStack), Mem(Null, OnStack), IDLE, IDLE, Pusher(PopLoad, Null));
    PairParts(s0, Mem(Null, OnStack), Mem(Null, OnStack), Pusher(PopLoad, Null), IDLE, Pusher(PopRead, TOP));
    OneMore(s0, [], CallPush(0, 0));
    run := [] + [CallPush(0, 0)];
    OneMore(s0, run, r);
    OneMore(s0, run + [r], r);
    OneMore(s0, run + [r] + [r], CallPop(0));
    OneMore(s0, run + [r] + [r] + [CallPop(0)], r);
    run := run + [r] + [r] + [CallPop(0)] + [r];
    assert Step(s0, CallPush(0, 0)) == s1;
    assert Step(s1, r) == s2;
    assert [0] + [] == [0];
    assert Step(s2, r) == s3;
    assert Step(s3, CallPop(0)) == s4;
  }

  /** Meanwhile thread 1 is about to pop node 0, */
  lemma LookToo(s0: State, run: seq<Action>) returns (run': seq<Action>)
    requires FreshPair(s0)
    requires Exec(s0, run) == Pair(s0, TOP, Mem(Null, OnStack), Pusher(PopRead, TOP), IDLE, [0])
    ensures Exec(s0, run') == Pair(s0, TOP, Mem(Null, OnStack), Pusher(PopRead, TOP), Pusher(PopCas, TOP), [0])
  {
    var r, t0, on := Run(1, false), Pusher(PopRead, TOP), Mem(Null, OnStack);
    var s1 := Exec(s0, run);
    var s2 := Pair(s0, TOP, on, t0, Pusher(PopLoad, Null), [0]);
    var s3 := Pair(s0, TOP, on, t0, Pusher(PopRead, TOP), [0]);
    PairParts(s0, on, on, t0, IDLE, Pusher(PopLoad, Null));
    PairParts(s0, on, on, t0, Pusher(PopLoad, Null), Pusher(PopRead, TOP));
    PairParts(s0, on, on, t0, Pusher(PopRead, TOP), Pusher(PopCas, TOP));
    OneMore(s0, run, CallPop(1));
    OneMore(s0, run + [CallPop(1)], r);
    OneMore(s0, run + [CallPop(1)] + [r], r);
    run' := run + [CallPop(1)] + [r] + [r];
    assert Step(s1, CallPop(1)) == s2;
    assert Step(s2, r) == s3;
  }

  /** ... pops it, and its client overwrites the node. */
  lemma PopAndReuse(s0: State, run: seq<Action>) returns (run': seq<Action>)
    requires FreshPair(s0)
    requires Exec(s0, run) == Pair(s0, TOP, Mem(Null, OnStack), Pusher(PopRead, TOP), Pusher(PopCas, TOP), [0])
    ensures Exec(s0, run') == Pair(s0, Null, Mem(TOP, Outside), Pusher(PopRead, TOP), Pusher(Idle, TOP), [])
  {
    var r, t0, done := Run(1, false), Pusher(PopRead, TOP), Thread(Idle, 0, TOP, Null, Some(0));
    var s4 := Exec(s0, run);
    var s5 := Pair(s0, Null, Mem(Null, Held(1)), t0, done, []);
    var s6 := Pair(s0, Null, Mem(Null, Outside), t0, Pusher(Idle, TOP), []);
    PairParts(s0, Mem(Null, OnStack), Mem(Null, Held(1)), t0, Pusher(PopCas, TOP), done);
    PairParts(s0, Mem(Null, Held(1)), Mem(Null, Outside), t0, done, Pusher(Idle, TOP));
    PairParts(s0, Mem(Null, Outside), Mem(TOP, Outside), t0, Pusher(Idle, TOP), IDLE);
    OneMore(s0, run, r);
    OneMore(s0, run + [r], Return(1));
    OneMore(s0, run + [r] + [Return(1)], Scribble(1, 0, TOP));
    run' := run + [r] + [Return(1)] + [Scribble(1, 0, TOP)];
    assert [0][1..] == [];
    assert Step(s4, r) == s5;
    assert Step(s5, Return(1)) == s6;
  }

  /** Thread 0 reads the link of a node it does not own, and thread 1 pushes that node again. */
  lemma ReadAndPush(s0: State, run: seq<Action>) returns (run': seq<Action>)
    requires FreshPair(s0)
    requires Exec(s0, run) == Pair(s0, Null, Mem(TOP, Outside), Pusher(PopRead, TOP), Pusher(Idle, TOP), [])
    ensures Exec(s0, run')
         == Pair(s0, TOP, Mem(Null, OnStack), Thread(PopCas, 0, TOP, TOP, None), Pusher(Idle, Null), [0])
  {
    var r, t0 := Run(1, false), Thread(PopCas, 0, TOP, TOP, None);
    var s1 := Exec(s0, run);
    var s2 := Pair(s0, Null, Mem(TOP, Outside), t0, Pusher(Idle, TOP), []);
    var s3 := Pair(s0, Null, Mem(TOP, Held(1)), t0, Pusher(PushLoad, TOP), []);
    var s4 := Pair(s0, Null, Mem(Null, Held(1)), t0, Pusher(PushCas, Null), []);
    PairParts(s0, Mem(TOP, Outside), Mem(TOP, Outside), Pusher(PopRead, TOP), Pusher(Idle, TOP), t0);
    PairParts(s0, Mem(TOP, Outside), Mem(TOP, Held(1)), t0, Pusher(Idle, TOP), Pusher(PushLoad, TOP));
    PairParts(s0, Mem(TOP, Held(1)), Mem(Null, Held(1)), t0, Pusher(PushLoad, TOP), Pusher(PushCas, Null));
    PairParts(s0, Mem(Null, Held(1)), Mem(Null, OnStack), t0, Pusher(PushCas, Null), Pusher(Idle, Null));
    OneMore(s0, run, Run(0, false));
    OneMore(s0, run + [Run(0, false)], CallPush(1, 0));
    OneMore(s0, run + [Run(0, false)] + [CallPush(1, 0)], r);
    OneMore(s0, run + [Run(0, false)] + [CallPush(1, 0)] + [r], r);
    run' := run + [Run(0, false)] + [CallPush(1, 0)] + [r] + [r];
    assert Step(s1, Run(0, false)) == s2;
    assert Step(s2, CallPush(1, 0)) == s3;
    assert Step(s3, r) == s4;
    assert [0] + [] == [0];
  }

  /** With two popping threads the stack breaks: thread 0's compare-exchange finds the old head back in place and
      installs the link it read while the node was a client's.  The node it takes is then still the top of the stack. */
  lemma TwoPoppersBreak(nodeCount: nat, threadCount: nat) returns (run: seq<Action>)
    requires nodeCount >= 1 && threadCount >= 2
    ensures !Sound(nodeCount, threadCount, None, run)
    ensures var s := Exec(Init(nodeCount, threadCount, None), run);
            s.threads[0].found == Some(0) && s.head == Node(0)
  {
    var s0 := Init(nodeCount, threadCount, None);
    run := PushAndLook(s0);
    run := LookToo(s0, run);
    run := PopAndReuse(s0, run);
    run := ReadAndPush(s0, run);
    OneMore(s0, run, Run(0, false));
    run := run + [Run(0, false)];
  }

  /** The stack is sound in all runs exactly when at most one thread pops (or there is no node). */
  lemma SoundIff(nodeCount: nat, threadCount: nat, popper: Option<nat>)
    ensures (forall run :: Sound(nodeCount, threadCount, popper, run))
            <==> Disciplined(popper, threadCount) || nodeCount == 0
  {
    if Disciplined(popper, threadCount) {
      forall run
        ensures Sound(nodeCount, threadCount, popper, run)
      {
        RunKept(nodeCount, threadCount, popper, run);
      }
    } else if nodeCount == 0 {
      forall run
        ensures Sound(nodeCount, threadCount, popper, run)
      {
        NothingToPush(threadCount, popper, run);
      }
    } else {
      var run := TwoPoppersBreak(nodeCount, threadCount);
      assert !Sound(nodeCount, threadCount, popper, run);
    }
  }

  lemma {:induction false} NothingToPush(threadCount: nat, popper: Option<nat>, run: seq<Action>)
    ensures var s := Exec(Init(0, threadCount, popper), run);
            s.head.Null? && forall t :: 0 <= t < |s.threads| ==> s.threads[t].at.Idle? || s.threads[t].at.PopLoad?
  {
    if run != [] {
      NothingToPush(threadCount, popper, run[..|run| - 1]);
    }
  }
}
