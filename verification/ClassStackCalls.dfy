/** The per-class stack of memory_pool.cc, with one popping thread, as a stack: with which step each call takes
    effect, when a pop comes back empty-handed, and what undisturbed calls do. */
module ClassStackCalls {
  import opened Common
  import opened ClassStack

  /** A state that a run with at most one popping thread reaches. */
  ghost predicate Reachable(s: State) {
    exists nodeCount: nat, threadCount: nat, popper, run :: Reaches(nodeCount, threadCount, popper, run, s)
  }

  ghost predicate Reaches(nodeCount: nat, threadCount: nat, popper: Option<nat>, run: seq<Action>, s: State) {
    Disciplined(popper, threadCount) && s == Exec(Init(nodeCount, threadCount, popper), run)
  }

  lemma ReachableInv(s: State)
    requires Reachable(s)
    ensures Inv(s)
  {
    var nodeCount: nat, threadCount: nat, popper, run :| Reaches(nodeCount, threadCount, popper, run, s);
    RunKept(nodeCount, threadCount, popper, run);
  }

  /** The step with which a push takes effect. */
  predicate Pushes(s: State, a: Action) {
    a.Run? && !a.spurious && a.t < |s.threads| && s.threads[a.t].at.PushCas? && s.head == s.threads[a.t].seen
  }

  /** The step with which a pop takes effect. */
  predicate Pops(s: State, a: Action) {
    a.Run? && !a.spurious && a.t < |s.threads| && s.threads[a.t].at.PopCas? && s.head == s.threads[a.t].seen
  }

  /** In every run each step leaves the stack alone, or puts the node of a push on top, or removes the top, which the
      pop gets. */
  lemma ActsAsStack(s: State, a: Action)
    requires Reachable(s)
    ensures var s' := Step(s, a);
            if Pushes(s, a) then s'.stack == [s.threads[a.t].node] + s.stack && s'.threads[a.t].at.Idle?
            else if Pops(s, a) then
              && s.stack != [] && s'.stack == s.stack[1..]
              && s'.threads[a.t].at.Idle? && s'.threads[a.t].found == Some(s.stack[0])
            else s'.stack == s.stack
  {
    ReachableInv(s);
    if a.t < |s.threads| {
      assert ThreadOk(s, a.t);
    }
  }

  /** A pop comes back without a node only at a step that finds the stack empty. */
  lemma EmptyIsHonest(s: State, a: Action)
    requires Reachable(s) && a.t < |s.threads| && Popping(s.threads[a.t])
    ensures var th' := Step(s, a).threads[a.t]; th'.at.Idle? && th'.found.None? ==> s.stack == []
  {
    ReachableInv(s);
    assert ThreadOk(s, a.t);
  }

  /** A call with the next three steps of its thread. */
  function Alone(s: State, call: Action): State {
    var r := Run(call.t, false);
    Step(Step(Step(Step(s, call), r), r), r)
  }

  /** An undisturbed push puts its node on top. */
  lemma PushAlone(s: State, t: nat, n: nat)
    requires Reachable(s) && t < |s.threads| && s.threads[t].at.Idle? && s.threads[t].found.None?
    requires n < |s.nodes| && s.nodes[n].owner.Outside?
    ensures var s' := Alone(s, CallPush(t, n));
            s'.stack == [n] + s.stack && s'.head == Node(n) && s'.threads[t].at.Idle? && s'.threads[t].found.None?
  {
    var r, th := Run(t, false), s.threads[t];
    var s1 := Step(s, CallPush(t, n));
    var s2 := Step(s1, r);
    assert s1.threads[t] == th.(at := PushLoad, node := n) && s1.head == s.head && s1.stack == s.stack;
    assert s2.threads[t] == th.(at := PushCas, node := n, seen := s.head) && s2.head == s.head && s2.stack == s.stack;
  }

  /** An undisturbed pop takes and returns the top, or nothing from an empty stack. */
  lemma PopAlone(s: State, t: nat)
    requires Reachable(s) && t < |s.threads| && s.threads[t].at.Idle? && s.threads[t].found.None? && MayPop(s, t)
    ensures var s' := Alone(s, CallPop(t));
            && s'.threads[t].at.Idle?
            && if s.stack == [] then s' == s
               else s'.threads[t].found == Some(s.stack[0]) && s'.stack == s.stack[1..]
  {
    ReachableInv(s);
    var r, th := Run(t, false), s.threads[t];
    var s1 := Goto(s, t, th.(at := PopLoad));
    if s.stack == [] {
      assert Step(s1, r) == s;
      assert Step(s, r) == s;
    } else {
      var s2 := Goto(s, t, th.(at := PopRead, seen := s.head));
      var s3 := Goto(s, t, th.(at := PopCas, seen := s.head, next := s.nodes[s.stack[0]].next));
      assert Step(s1, r) == s2;
      assert Step(s2, r) == s3;
    }
  }
}
