/** The central free list of memory_pool.cc as a list: what each step does to it, what a pop finds, and what undisturbed
    calls do. */
module SharedFreeListCalls {
  import opened Common
  import opened SharedFreeList
  import L = CentralFreeList

  ghost predicate Reachable(s: State) {
    exists nodeCount: nat, threadCount: nat, run :: Reaches(nodeCount, threadCount, run, s)
  }

  ghost predicate Reaches(nodeCount: nat, threadCount: nat, run: seq<Action>, s: State) {
    s == Exec(Init(nodeCount, threadCount), run)
  }

  lemma ReachableInv(s: State)
    requires Reachable(s)
    ensures Inv(s)
  {
    var nodeCount: nat, threadCount: nat, run :| Reaches(nodeCount, threadCount, run, s);
    RunKept(nodeCount, threadCount, run);
  }

  /** The step with which a pop takes the list. */
  predicate TakesAll(s: State, a: Action) { a.Run? && a.t < |s.threads| && s.threads[a.t].at.Exchange? }

  /** The step with which a push, or a pop for the nodes it does not keep, puts its chain back. */
  predicate PutsBack(s: State, a: Action) {
    a.Run? && !a.spurious && a.t < |s.threads| && s.threads[a.t].at.CasHead? && s.head == s.threads[a.t].seen
  }

  /** Every step leaves the list alone, or takes all of it, or puts a thread's whole chain in front of it. */
  lemma ListActs(s: State, a: Action)
    ensures var s' := Step(s, a);
            if TakesAll(s, a) then s'.list == [] && a.t < |s'.threads| && s'.threads[a.t].chain == s.list
            else if PutsBack(s, a) then
              && s'.list == s.threads[a.t].chain + s.list
              && a.t < |s'.threads| && s'.threads[a.t].at.Idle? && s'.threads[a.t].chain == []
            else s'.list == s.list
  {
  }

  predicate Within(nodes: seq<Mem>, chain: seq<nat>) { forall i :: 0 <= i < |chain| ==> chain[i] < |nodes| }

  predicate TooSmall(nodes: seq<Mem>, chain: seq<nat>, min: nat, k: nat)
    requires Within(nodes, chain) && k <= |chain|
  {
    forall i :: 0 <= i < k ==> nodes[chain[i]].size < min
  }

  /** `found` is the first node of the chain that is large enough, none exactly if all are too small, and `rest` are the
      others in their order. */
  predicate Selects(nodes: seq<Mem>, chain: seq<nat>, min: nat, found: Option<nat>, rest: seq<nat>)
    requires Within(nodes, chain)
  {
    if TooSmall(nodes, chain, min, |chain|) then found.None? && rest == chain
    else
      exists f :: 0 <= f < |chain| && nodes[chain[f]].size >= min && TooSmall(nodes, chain, min, f)
        && found == Some(chain[f]) && rest == chain[..f] + chain[f + 1..]
  }

  lemma FirstFitSelects(nodes: seq<Mem>, chain: seq<nat>, min: nat)
    requires Within(nodes, chain)
    ensures var f := L.FirstFit(Sizes(nodes, chain), min);
            Selects(nodes, chain, min, if f == |chain| then None else Some(chain[f]), L.Without(chain, f))
  {
    var sizes := Sizes(nodes, chain);
    var f := L.FirstFit(sizes, min);
    forall i | 0 <= i < |chain|
      ensures sizes[i] == nodes[chain[i]].size
    {
    }
    if f < |chain| {
      assert sizes[f] == nodes[chain[f]].size;
      assert !TooSmall(nodes, chain, min, |chain|);
      assert TooSmall(nodes, chain, min, f);
    } else {
      assert TooSmall(nodes, chain, min, |chain|);
    }
  }

  lemma SurgerySelects(s: State, t: nat)
    requires Inv(s) && t < |s.threads| && s.threads[t].at.Surgery?
    ensures Within(s.nodes, s.threads[t].chain)
    ensures var th, s' := s.threads[t], ThreadStep(s, t, false);
            && |s'.threads| == |s.threads| && s'.threads[t].at.FindTail? && s'.list == s.list
            && Selects(s.nodes, th.chain, th.min, s'.threads[t].found, s'.threads[t].chain)
  {
    assert ThreadOk(s, t);
    SurgeryIs(s, t);
    FirstFitSelects(s.nodes, s.threads[t].chain, s.threads[t].min);
  }

  /** A pop that has taken the list keeps the first node that is large enough, and nothing exactly if none is; the
      others stay in their order. */
  lemma PopFindsFirstFit(s: State, t: nat, spurious: bool)
    requires Reachable(s) && t < |s.threads| && s.threads[t].at.Surgery?
    ensures Within(s.nodes, s.threads[t].chain)
    ensures var th, th' := s.threads[t], Step(s, Run(t, spurious)).threads[t];
            Selects(s.nodes, th.chain, th.min, th'.found, th'.chain)
  {
    ReachableInv(s);
    SurgerySelects(s, t);
  }

  /** From then on the call keeps what it found. */
  lemma PopKeepsFound(s: State, t: nat, spurious: bool)
    requires t < |s.threads| && (s.threads[t].at.FindTail? || s.threads[t].at.LoadHead? || s.threads[t].at.CasHead?)
    ensures Step(s, Run(t, spurious)).threads[t].found == s.threads[t].found
  {
  }

  // ---- Calls that run alone ------------------------------------------------------------------------------------

  /** An undisturbed push puts its node in front, with the size given. */
  lemma PushAlone(s: State, t: nat, n: nat, size: nat)
    requires Reachable(s) && t < |s.threads| && s.threads[t].at.Idle? && s.threads[t].found.None?
    requires n < |s.nodes| && s.nodes[n].owner.Outside?
    ensures var r := Run(t, false);
            var s' := Step(Step(Step(s, CallPush(t, n, size)), r), r);
            && s'.list == [n] + s.list && s'.head == Node(n) && |s'.nodes| == |s.nodes| && s'.nodes[n].size == size
            && s'.threads[t].at.Idle? && s'.threads[t].found.None?
  {
    var s1 := Step(s, CallPush(t, n, size));
    var s2 := Step(s1, Run(t, false));
    assert s1.threads[t].chain == [n] && s1.head == s.head && s1.list == s.list;
    assert s2.threads[t] == s1.threads[t].(at := CasHead, seen := s.head) && s2.head == s.head && s2.list == s.list;
  }

  /** A thread that holds the rest of the list puts it back. */
  lemma PutBackAlone(s: State, t: nat)
    requires Inv(s) && t < |s.threads| && s.threads[t].at.FindTail?
    ensures var r := Run(t, false);
            var s' := Step(Step(Step(s, r), r), r);
            && |s'.threads| == |s.threads| && s'.threads[t].at.Idle? && s'.threads[t].found == s.threads[t].found
            && s'.list == s.threads[t].chain + s.list
  {
    assert ThreadOk(s, t);
    WalkIsChain(s.nodes, s.threads[t].chain, Held(t));
    var th, r := s.threads[t], Run(t, false);
    var s1 := Step(s, r);
    if th.chain == [] {
      assert s1.threads[t] == th.(at := Idle);
      assert Step(s1, r) == s1;
    } else {
      var s2 := Step(s1, r);
      assert s1.threads[t] == th.(at := LoadHead, tail := th.chain[|th.chain| - 1]);
      assert s2.threads[t] == s1.threads[t].(at := CasHead, seen := s.head) && s2.head == s.head;
    }
  }

  /** The exchange of an undisturbed pop. */
  lemma TakenAlone(s: State, t: nat, min: nat)
    requires t < |s.threads| && s.threads[t].at.Idle? && s.threads[t].found.None?
    ensures var s2 := Step(Step(s, CallPop(t, min)), Run(t, false));
            && |s2.threads| == |s.threads| && |s2.nodes| == |s.nodes| && s2.list == []
            && s2.threads[t].at.Surgery? && s2.threads[t].min == min && s2.threads[t].chain == s.list
            && forall n :: 0 <= n < |s.nodes| ==> s2.nodes[n].size == s.nodes[n].size
  {
  }

  lemma SelectsSame(nodes: seq<Mem>, nodes': seq<Mem>, chain: seq<nat>, min: nat, found: Option<nat>, rest: seq<nat>)
    requires |nodes'| == |nodes| && forall n :: 0 <= n < |nodes| ==> nodes'[n].size == nodes[n].size
    requires Within(nodes', chain) && Selects(nodes', chain, min, found, rest)
    ensures Within(nodes, chain) && Selects(nodes, chain, min, found, rest)
  {
    assert forall k | 0 <= k <= |chain| :: TooSmall(nodes', chain, min, k) == TooSmall(nodes, chain, min, k);
  }

  /** An undisturbed pop removes and returns the first listed node that is large enough, if there is one, and leaves the
      other nodes in their order. */
  lemma PopAlone(s: State, t: nat, min: nat)
    requires Reachable(s) && t < |s.threads| && s.threads[t].at.Idle? && s.threads[t].found.None?
    ensures Within(s.nodes, s.list)
    ensures var r := Run(t, false);
            var s' := Step(Step(Step(Step(Step(Step(s, CallPop(t, min)), r), r), r), r), r);
            && |s'.threads| == |s.threads| && s'.threads[t].at.Idle?
            && Selects(s.nodes, s.list, min, s'.threads[t].found, s'.list)
  {
    ReachableInv(s);
    var r, call := Run(t, false), CallPop(t, min);
    var s2 := Step(Step(s, call), r);
    StepKept(s, call);
    StepKept(Step(s, call), r);
    StepKept(s2, r);
    TakenAlone(s, t, min);
    SurgerySelects(s2, t);
    var s3 := ThreadStep(s2, t, false);
    SelectsSame(s.nodes, s2.nodes, s.list, min, s3.threads[t].found, s3.threads[t].chain);
    PutBackAlone(s3, t);
    assert s3.threads[t].chain + [] == s3.threads[t].chain;
  }
}
