/** CentralFreeList of memory_pool.cc under concurrent push and pop.  A pop takes the whole list by one exchange,
    works on it privately, following the links in memory (CentralFreeList proves what that surgery does on linked
    nodes), and pushes the remainder back; a push is the same push-back of a one-node chain.  One access to head_ per
    step, any interleaving. */
module SharedFreeList {
  import opened Common
  import L = CentralFreeList

  /** Who has a node: the pool's clients, the shared list, or the thread working on it. */
  datatype Owner = Outside | OnList | Held(t: nat)

  /** `next` and `size` are the node's memory; `owner` is history. */
  datatype Mem = Mem(next: Ref, size: nat, owner: Owner)

  datatype ThreadAt = Idle | Exchange | Surgery | FindTail | LoadHead | CasHead

  /** `first` and `tail` are the private chain's ends and `seen` the head last read.  `chain` (the nodes of the private
      chain) is history. */
  datatype Thread = Thread(at: ThreadAt, min: nat, first: Ref, tail: nat, seen: Ref,
                           found: Option<nat>, chain: seq<nat>)

  /** `list` (the nodes of the shared list) is history. */
  datatype State = State(head: Ref, nodes: seq<Mem>, threads: seq<Thread>, list: seq<nat>)

  datatype Action =
    | CallPush(t: nat, n: nat, size: nat)
    | CallPop(t: nat, min: nat)
    | Run(t: nat, spurious: bool)
    | Return(t: nat)
    | Scribble(t: nat, n: nat, next: Ref, size: nat)

  function SetNext(nodes: seq<Mem>, n: nat, next: Ref): (r: seq<Mem>)
    ensures |r| == |nodes|
  {
    if n < |nodes| then nodes[n := nodes[n].(next := next)] else nodes
  }

  function Sizes(nodes: seq<Mem>, chain: seq<nat>): (r: seq<nat>)
    ensures |r| == |chain|
  {
    seq(|chain|, i requires 0 <= i < |chain| => if chain[i] < |nodes| then nodes[chain[i]].size else 0)
  }

  /** The nodes met by following `next` from `r`, at most `fuel` of them. */
  function Walk(nodes: seq<Mem>, r: Ref, fuel: nat): (chain: seq<nat>)
    ensures forall i :: 0 <= i < |chain| ==> chain[i] < |nodes|
    decreases fuel
  {
    if r.Null? || r.n >= |nodes| || fuel == 0 then [] else [r.n] + Walk(nodes, nodes[r.n].next, fuel - 1)
  }

  function ThreadStep(s: State, t: nat, spurious: bool): State
    requires t < |s.threads|
  {
    var th := s.threads[t];
    match th.at
    case Idle => s
    case Exchange =>
      State(Null,
            seq(|s.nodes|, n requires 0 <= n < |s.nodes| =>
              if s.nodes[n].owner.OnList? then s.nodes[n].(owner := Held(t)) else s.nodes[n]),
            s.threads[t := th.(at := Surgery, first := s.head, chain := s.list)], [])
    case Surgery =>
      var chain := Walk(s.nodes, th.first, |s.nodes|);
      var f := L.FirstFit(Sizes(s.nodes, chain), th.min);
      if f == |chain| then s.(threads := s.threads[t := th.(at := FindTail)])
      else
        var after := s.nodes[chain[f]].next;
        s.(nodes := if f == 0 then s.nodes else SetNext(s.nodes, chain[f - 1], after),
           threads := s.threads[t := th.(at := FindTail, first := if f == 0 then after else th.first,
                                         found := Some(chain[f]), chain := L.Without(th.chain, f))])
    case FindTail =>
      var chain := Walk(s.nodes, th.first, |s.nodes|);
      s.(threads := s.threads[t := if chain == [] then th.(at := Idle)
                                   else th.(at := LoadHead, tail := chain[|chain| - 1])])
    case LoadHead => Aim(s, t)
    case CasHead =>
      if spurious || s.head != th.seen then Aim(s, t)
      else
        s.(head := th.first, list := th.chain + s.list,
           nodes := seq(|s.nodes|, n requires 0 <= n < |s.nodes| =>
             if n in th.chain then s.nodes[n].(owner := OnList) else s.nodes[n]),
           threads := s.threads[t := th.(at := Idle, chain := [])])
  }

  /** The head of the push loop: link the private chain's last node to the head just read. */
  function Aim(s: State, t: nat): State
    requires t < |s.threads|
  {
    s.(nodes := SetNext(s.nodes, s.threads[t].tail, s.head),
       threads := s.threads[t := s.threads[t].(at := CasHead, seen := s.head)])
  }

  /** A push needs a node its caller owns; a pop's result goes to its caller when the call returns.  The memory of a
      node that a client owns may be overwritten at any time. */
  function Step(s: State, a: Action): State {
    if a.t >= |s.threads| then s
    else
      var th := s.threads[a.t];
      match a
      case CallPush(t, n, size) =>
        if th.at.Idle? && th.found.None? && n < |s.nodes| && s.nodes[n].owner.Outside? then
          s.(nodes := s.nodes[n := Mem(s.nodes[n].next, size, Held(t))],
             threads := s.threads[t := th.(at := LoadHead, first := Node(n), tail := n, chain := [n])])
        else s
      case CallPop(t, min) =>
        if th.at.Idle? && th.found.None? then s.(threads := s.threads[t := th.(at := Exchange, min := min)]) else s
      case Run(t, spurious) => ThreadStep(s, t, spurious)
      case Return(t) =>
        if th.at.Idle? && th.found.Some? && th.found.value < |s.nodes| then
          s.(nodes := s.nodes[th.found.value := s.nodes[th.found.value].(owner := Outside)],
             threads := s.threads[t := th.(found := None)])
        else s
      case Scribble(t, n, next, size) =>
        if n < |s.nodes| && s.nodes[n].owner.Outside? then s.(nodes := s.nodes[n := Mem(next, size, Outside)]) else s
  }

  const IDLE: Thread := Thread(Idle, 0, Null, 0, Null, None, [])

  function Init(nodeCount: nat, threadCount: nat): State {
    State(Null, seq(nodeCount, _ => Mem(Null, 0, Outside)), seq(threadCount, _ => IDLE), [])
  }

  function Exec(s: State, run: seq<Action>): State {
    if run == [] then s else Step(Exec(s, run[..|run| - 1]), run[|run| - 1])
  }

  // ---- What every run keeps -------------------------------------------------------------------------

  /** `chain` lists distinct nodes, all with `owner`, each linked to the next; `last` is what the final one links to. */
  predicate Linked(nodes: seq<Mem>, chain: seq<nat>, owner: Owner) {
    && (forall i :: 0 <= i < |chain| ==> chain[i] < |nodes| && nodes[chain[i]].owner == owner)
    && (forall i :: 0 <= i < |chain| - 1 ==> nodes[chain[i]].next == Node(chain[i + 1]))
    && (forall i, j :: 0 <= i < j < |chain| ==> chain[i] != chain[j])
  }

  function LastNext(nodes: seq<Mem>, chain: seq<nat>): Ref
    requires chain != [] && chain[|chain| - 1] < |nodes|
  {
    nodes[chain[|chain| - 1]].next
  }

  predicate ThreadOk(s: State, t: nat)
    requires t < |s.threads|
  {
    var th := s.threads[t];
    && Linked(s.nodes, th.chain, Held(t))
    && (th.found.Some? ==>
          th.found.value < |s.nodes| && s.nodes[th.found.value].owner == Held(t) && th.found.value !in th.chain)
    && (th.at.Idle? || th.at.Exchange? ==> th.chain == [])
    && (th.at.Exchange? || th.at.Surgery? ==> th.found.None?)
    && (!th.at.Idle? && !th.at.Exchange? ==> th.first == RefAt(th.chain, 0))
    && ((th.at.Surgery? || th.at.FindTail?) && th.chain != [] ==> LastNext(s.nodes, th.chain).Null?)
    && (th.at.LoadHead? || th.at.CasHead? ==> th.chain != [] && th.tail == th.chain[|th.chain| - 1])
    && (th.at.CasHead? ==> LastNext(s.nodes, th.chain) == th.seen)
  }

  predicate NodeOk(s: State, n: nat)
    requires n < |s.nodes|
  {
    match s.nodes[n].owner
    case Outside => true
    case OnList => n in s.list
    case Held(t) => t < |s.threads| && (n in s.threads[t].chain || s.threads[t].found == Some(n))
  }

  predicate ListOk(s: State) {
    && s.head == RefAt(s.list, 0)
    && Linked(s.nodes, s.list, OnList)
    && (s.list != [] ==> LastNext(s.nodes, s.list).Null?)
  }

  predicate Inv(s: State) {
    && ListOk(s)
    && (forall t :: 0 <= t < |s.threads| ==> ThreadOk(s, t))
    && (forall n :: 0 <= n < |s.nodes| ==> NodeOk(s, n))
  }

  /** A chain survives steps that leave owner and link of its nodes. */
  lemma LinkedFrame(nodes: seq<Mem>, nodes': seq<Mem>, chain: seq<nat>, owner: Owner)
    requires Linked(nodes, chain, owner) && |nodes'| == |nodes|
    requires forall n :: 0 <= n < |nodes| && n in chain ==> nodes'[n].owner == owner && nodes'[n].next == nodes[n].next
    ensures Linked(nodes', chain, owner)
    ensures chain != [] ==> LastNext(nodes', chain) == LastNext(nodes, chain)
  {
    forall i | 0 <= i < |chain|
      ensures nodes'[chain[i]].owner == owner && nodes'[chain[i]].next == nodes[chain[i]].next
    {
      assert chain[i] in chain;
    }
  }

  lemma {:induction false} DistinctBounded(chain: seq<nat>, n: nat)
    requires forall i :: 0 <= i < |chain| ==> chain[i] < n
    requires forall i, j :: 0 <= i < j < |chain| ==> chain[i] != chain[j]
    ensures |chain| <= n
    decreases n
  {
    if chain != [] {
      var m := |chain| - 1;
      var last := chain[m];
      var rest := seq(m, i requires 0 <= i < m => if chain[i] == n - 1 then last else chain[i]);
      DistinctBounded(rest, n - 1);
    }
  }

  lemma {:induction false} WalkFollows(nodes: seq<Mem>, chain: seq<nat>, owner: Owner, fuel: nat)
    requires Linked(nodes, chain, owner) && (chain != [] ==> LastNext(nodes, chain).Null?) && |chain| <= fuel
    ensures Walk(nodes, RefAt(chain, 0), fuel) == chain
    decreases fuel
  {
    if chain != [] {
      LinkedTail(nodes, chain, owner);
      WalkFollows(nodes, chain[1..], owner, fuel - 1);
    }
  }

  /** Following the links of a chain that ends in null meets exactly its nodes. */
  lemma WalkIsChain(nodes: seq<Mem>, chain: seq<nat>, owner: Owner)
    requires Linked(nodes, chain, owner) && (chain != [] ==> LastNext(nodes, chain).Null?)
    ensures Walk(nodes, RefAt(chain, 0), |nodes|) == chain
  {
    DistinctBounded(chain, |nodes|);
    WalkFollows(nodes, chain, owner, |nodes|);
  }

  /** Threads whose nodes are left alone keep their facts. */
  lemma OthersKept(s: State, s': State, t: nat)
    requires Inv(s) && |s'.nodes| == |s.nodes| && |s'.threads| == |s.threads|
    requires forall u :: 0 <= u < |s.threads| && u != t ==> s'.threads[u] == s.threads[u]
    requires forall n :: 0 <= n < |s.nodes| && s.nodes[n].owner.Held? && s.nodes[n].owner.t != t ==>
               s'.nodes[n].owner == s.nodes[n].owner && s'.nodes[n].next == s.nodes[n].next
    ensures forall u :: 0 <= u < |s.threads| && u != t ==> ThreadOk(s', u)
  {
    forall u | 0 <= u < |s.threads| && u != t
      ensures ThreadOk(s', u)
    {
      assert ThreadOk(s, u);
      LinkedFrame(s.nodes, s'.nodes, s.threads[u].chain, Held(u));
    }
  }

  /** A step of `t` that leaves the list and every node of others alone keeps all but what is to be shown of `t`. */
  lemma PrivateStepKept(s: State, s': State, t: nat)
    requires Inv(s) && t < |s.threads| && |s'.nodes| == |s.nodes| && |s'.threads| == |s.threads|
    requires s'.head == s.head && s'.list == s.list
    requires forall u :: 0 <= u < |s.threads| && u != t ==> s'.threads[u] == s.threads[u]
    requires forall n :: 0 <= n < |s.nodes| &&
                         (s.nodes[n].owner.OnList? || (s.nodes[n].owner.Held? && s.nodes[n].owner.t != t)) ==>
               s'.nodes[n].owner == s.nodes[n].owner && s'.nodes[n].next == s.nodes[n].next
    requires ThreadOk(s', t) && forall n :: 0 <= n < |s'.nodes| ==> NodeOk(s', n)
    ensures Inv(s')
  {
    OthersKept(s, s', t);
    LinkedFrame(s.nodes, s'.nodes, s.list, OnList);
  }

  lemma ExchangeKept(s: State, t: nat)
    requires Inv(s) && t < |s.threads| && s.threads[t].at.Exchange?
    ensures Inv(ThreadStep(s, t, false))
  {
    var s' := ThreadStep(s, t, false);
    assert ThreadOk(s, t);
    OthersKept(s, s', t);
    forall n | 0 <= n < |s'.nodes|
      ensures NodeOk(s', n)
    {
      assert NodeOk(s, n);
    }
  }

  /** Linking the last private node to the head just read touches no other chain. */
  lemma AimKept(s: State, t: nat, spurious: bool)
    requires Inv(s) && t < |s.threads|
    requires s.threads[t].at.LoadHead? || (s.threads[t].at.CasHead? && (spurious || s.head != s.threads[t].seen))
    ensures Inv(ThreadStep(s, t, spurious))
  {
    var s' := ThreadStep(s, t, spurious);
    assert ThreadOk(s, t);
    OthersKept(s, s', t);
    LinkedFrame(s.nodes, s'.nodes, s.list, OnList);
    forall n | 0 <= n < |s'.nodes|
      ensures NodeOk(s', n)
    {
      assert NodeOk(s, n);
    }
  }

  lemma LinkedConcat(nodes: seq<Mem>, a: seq<nat>, b: seq<nat>, owner: Owner)
    requires Linked(nodes, a, owner) && Linked(nodes, b, owner) && a != []
    requires LastNext(nodes, a) == RefAt(b, 0)
    requires forall n :: n in a ==> n !in b
    ensures Linked(nodes, a + b, owner)
  {
    var c := a + b;
    forall i | 0 <= i < |c| - 1
      ensures nodes[c[i]].next == Node(c[i + 1])
    {
      if i >= |a| {
        assert c[i] == b[i - |a|] && c[i + 1] == b[i - |a| + 1];
      } else if i == |a| - 1 {
        assert c[i + 1] == b[0];
      }
    }
    forall i, j | 0 <= i < j < |c|
      ensures c[i] != c[j]
    {
      if i < |a| <= j {
        assert c[i] in a && c[j] == b[j - |a|];
      }
    }
  }

  lemma CasKept(s: State, t: nat)
    requires Inv(s) && t < |s.threads| && s.threads[t].at.CasHead? && s.head == s.threads[t].seen
    ensures Inv(ThreadStep(s, t, false))
  {
    assert ThreadOk(s, t);
    OthersKept(s, ThreadStep(s, t, false), t);
    CasList(s, t);
    CasNodes(s, t);
  }

  lemma CasList(s: State, t: nat)
    requires ListOk(s) && t < |s.threads| && ThreadOk(s, t)
    requires s.threads[t].at.CasHead? && s.head == s.threads[t].seen
    ensures ListOk(ThreadStep(s, t, false))
  {
    var s', th := ThreadStep(s, t, false), s.threads[t];
    LinkedFrame(s.nodes, s'.nodes, s.list, OnList);
    Relabelled(s.nodes, s'.nodes, th.chain, Held(t), OnList);
    LinkedConcat(s'.nodes, th.chain, s.list, OnList);
  }

  lemma CasNodes(s: State, t: nat)
    requires Inv(s) && t < |s.threads| && s.threads[t].at.CasHead? && s.head == s.threads[t].seen
    ensures forall n :: 0 <= n < |s.nodes| ==> NodeOk(ThreadStep(s, t, false), n)
  {
    assert ThreadOk(s, t);
    forall n | 0 <= n < |s.nodes|
      ensures NodeOk(ThreadStep(s, t, false), n)
    {
      assert NodeOk(s, n);
    }
  }

  lemma Relabelled(nodes: seq<Mem>, nodes': seq<Mem>, chain: seq<nat>, owner: Owner, owner': Owner)
    requires Linked(nodes, chain, owner) && |nodes'| == |nodes|
    requires forall n :: 0 <= n < |nodes| && n in chain ==> nodes'[n].owner == owner' && nodes'[n].next == nodes[n].next
    ensures Linked(nodes', chain, owner')
    ensures chain != [] ==> LastNext(nodes', chain) == LastNext(nodes, chain)
  {
    forall i | 0 <= i < |chain|
      ensures nodes'[chain[i]].owner == owner' && nodes'[chain[i]].next == nodes[chain[i]].next
    {
      assert chain[i] in chain;
    }
  }

  /** Unlinking the first node leaves the rest of the chain. */
  lemma UnlinkFirst(nodes: seq<Mem>, chain: seq<nat>, owner: Owner)
    requires Linked(nodes, chain, owner) && chain != [] && LastNext(nodes, chain).Null?
    ensures var rest := L.Without(chain, 0);
            && Linked(nodes, rest, owner) && chain[0] !in rest && nodes[chain[0]].next == RefAt(rest, 0)
            && (rest != [] ==> LastNext(nodes, rest).Null?)
  {
    assert L.Without(chain, 0) == chain[1..];
    LinkedTail(nodes, chain, owner);
  }

  lemma LinkedTail(nodes: seq<Mem>, chain: seq<nat>, owner: Owner)
    requires Linked(nodes, chain, owner) && chain != [] && LastNext(nodes, chain).Null?
    ensures var rest := chain[1..];
            && Linked(nodes, rest, owner) && chain[0] !in rest && nodes[chain[0]].next == RefAt(rest, 0)
            && (rest != [] ==> LastNext(nodes, rest).Null?)
  {
    var rest := chain[1..];
    forall i | 0 <= i < |rest|
      ensures rest[i] == chain[i + 1] && chain[0] != rest[i]
      ensures i < |rest| - 1 ==> nodes[rest[i]].next == Node(rest[i + 1])
    {
    }
  }

  /** Unlinking a later node re-links its predecessor past it. */
  lemma UnlinkLater(nodes: seq<Mem>, chain: seq<nat>, f: nat, owner: Owner)
    requires Linked(nodes, chain, owner) && 0 < f < |chain| && LastNext(nodes, chain).Null?
    ensures var nodes' := SetNext(nodes, chain[f - 1], nodes[chain[f]].next);
            var rest := L.Without(chain, f);
            Linked(nodes', rest, owner) && chain[f] !in rest && rest[0] == chain[0] && LastNext(nodes', rest).Null?
  {
    var nodes' := SetNext(nodes, chain[f - 1], nodes[chain[f]].next);
    var rest := L.Without(chain, f);
    forall i | 0 <= i < |rest|
      ensures rest[i] == chain[if i < f then i else i + 1]
    {
    }
    forall i | 0 <= i < |rest| - 1
      ensures nodes'[rest[i]].next == Node(rest[i + 1])
    {
      var j := if i < f then i else i + 1;
      assert rest[i] == chain[j] && nodes[chain[j]].next == Node(chain[j + 1]);
      if j == f - 1 {
        assert nodes[chain[f]].next == Node(chain[f + 1]) && rest[i + 1] == chain[f + 1];
      } else {
        assert chain[j] != chain[f - 1] && rest[i + 1] == chain[j + 1];
      }
    }
    var m := |rest| - 1;
    if f == |chain| - 1 {
      assert rest[m] == chain[f - 1];
    } else {
      assert rest[m] == chain[|chain| - 1] && chain[|chain| - 1] != chain[f - 1];
    }
  }

  /** The surgery in terms of the recorded chain. */
  lemma SurgeryIs(s: State, t: nat)
    requires t < |s.threads| && s.threads[t].at.Surgery? && ThreadOk(s, t)
    ensures var th, s' := s.threads[t], ThreadStep(s, t, false);
            var f := L.FirstFit(Sizes(s.nodes, th.chain), th.min);
            && (f == |th.chain| ==> s' == s.(threads := s.threads[t := th.(at := FindTail)]))
            && (f < |th.chain| ==>
                  var after := s.nodes[th.chain[f]].next;
                  s' == s.(nodes := if f == 0 then s.nodes else SetNext(s.nodes, th.chain[f - 1], after),
                           threads := s.threads[t := th.(at := FindTail, first := if f == 0 then after else th.first,
                                                         found := Some(th.chain[f]), chain := L.Without(th.chain, f))]))
  {
    WalkIsChain(s.nodes, s.threads[t].chain, Held(t));
  }

  lemma SurgeryThread(s: State, t: nat)
    requires Inv(s) && t < |s.threads| && s.threads[t].at.Surgery?
    ensures ThreadOk(ThreadStep(s, t, false), t)
  {
    assert ThreadOk(s, t);
    SurgeryIs(s, t);
    var th := s.threads[t];
    var f := L.FirstFit(Sizes(s.nodes, th.chain), th.min);
    if f == 0 && th.chain != [] {
      UnlinkFirst(s.nodes, th.chain, Held(t));
    } else if f < |th.chain| {
      UnlinkLater(s.nodes, th.chain, f, Held(t));
      UnlinkOwners(s.nodes, th.chain[f - 1], s.nodes[th.chain[f]].next);
    }
  }

  lemma UnlinkOwners(nodes: seq<Mem>, n: nat, next: Ref)
    ensures forall m :: 0 <= m < |nodes| ==> SetNext(nodes, n, next)[m].owner == nodes[m].owner
  {
  }

  /** Every node of the chain taken is still in the chain, or is the one found. */
  lemma SurgeryNodes(s: State, t: nat)
    requires Inv(s) && t < |s.threads| && s.threads[t].at.Surgery?
    ensures forall n :: 0 <= n < |s.nodes| ==> NodeOk(ThreadStep(s, t, false), n)
  {
    var s', th := ThreadStep(s, t, false), s.threads[t];
    assert ThreadOk(s, t);
    SurgeryIs(s, t);
    var f := L.FirstFit(Sizes(s.nodes, th.chain), th.min);
    forall n | 0 <= n < |s.nodes|
      ensures NodeOk(s', n)
    {
      assert NodeOk(s, n);
      if n in th.chain && f < |th.chain| && n != th.chain[f] {
        KeptByWithout(th.chain, f, n);
      }
    }
  }

  /** The surgery writes at most one node, which `t` holds. */
  lemma SurgeryFrame(s: State, t: nat)
    requires t < |s.threads| && s.threads[t].at.Surgery? && ThreadOk(s, t)
    ensures var s' := ThreadStep(s, t, false);
            && |s'.nodes| == |s.nodes| && |s'.threads| == |s.threads| && s'.head == s.head && s'.list == s.list
            && (forall u :: 0 <= u < |s.threads| && u != t ==> s'.threads[u] == s.threads[u])
            && forall n :: 0 <= n < |s.nodes| && s.nodes[n].owner != Held(t) ==> s'.nodes[n] == s.nodes[n]
  {
    SurgeryIs(s, t);
  }

  lemma SurgeryKept(s: State, t: nat)
    requires Inv(s) && t < |s.threads| && s.threads[t].at.Surgery?
    ensures Inv(ThreadStep(s, t, false))
  {
    assert ThreadOk(s, t);
    SurgeryThread(s, t);
    SurgeryNodes(s, t);
    SurgeryFrame(s, t);
    PrivateStepKept(s, ThreadStep(s, t, false), t);
  }

  lemma FindTailKept(s: State, t: nat)
    requires Inv(s) && t < |s.threads| && s.threads[t].at.FindTail?
    ensures Inv(ThreadStep(s, t, false))
  {
    var s', th := ThreadStep(s, t, false), s.threads[t];
    assert ThreadOk(s, t);
    WalkIsChain(s.nodes, th.chain, Held(t));
    forall n | 0 <= n < |s.nodes|
      ensures NodeOk(s', n)
    {
      assert NodeOk(s, n);
    }
    PrivateStepKept(s, s', t);
  }

  lemma KeptByWithout(q: seq<nat>, f: nat, n: nat)
    requires n in q && f < |q| && n != q[f]
    ensures n in L.Without(q, f)
  {
    var i :| 0 <= i < |q| && q[i] == n;
    assert L.Without(q, f)[if i < f then i else i - 1] == n;
  }

  lemma CallNodes(s: State, a: Action)
    requires Inv(s) && a.t < |s.threads| && !a.Run?
    ensures forall n :: 0 <= n < |s.nodes| ==> NodeOk(Step(s, a), n)
  {
    assert ThreadOk(s, a.t);
    forall n | 0 <= n < |s.nodes|
      ensures NodeOk(Step(s, a), n)
    {
      assert NodeOk(s, n);
    }
  }

  lemma CallKept(s: State, a: Action)
    requires Inv(s) && a.t < |s.threads| && !a.Run? && !a.Scribble?
    ensures Inv(Step(s, a))
  {
    var s' := Step(s, a);
    assert ThreadOk(s, a.t);
    CallNodes(s, a);
    PrivateStepKept(s, s', a.t);
  }

  lemma ScribbleKept(s: State, a: Action)
    requires Inv(s) && a.t < |s.threads| && a.Scribble?
    ensures Inv(Step(s, a))
  {
    var s' := Step(s, a);
    assert ThreadOk(s, a.t);
    CallNodes(s, a);
    LinkedFrame(s.nodes, s'.nodes, s.threads[a.t].chain, Held(a.t));
    PrivateStepKept(s, s', a.t);
  }

  lemma StepKept(s: State, a: Action)
    requires Inv(s)
    ensures Inv(Step(s, a))
  {
    if a.t < |s.threads| {
      var th := s.threads[a.t];
      if a.Scribble? {
        ScribbleKept(s, a);
      } else if !a.Run? {
        CallKept(s, a);
      } else if th.at.Exchange? {
        ExchangeKept(s, a.t);
      } else if th.at.Surgery? {
        SurgeryKept(s, a.t);
      } else if th.at.FindTail? {
        FindTailKept(s, a.t);
      } else if th.at.CasHead? && !a.spurious && s.head == th.seen {
        CasKept(s, a.t);
      } else if !th.at.Idle? {
        AimKept(s, a.t, a.spurious);
      }
    }
  }

  lemma {:induction false} RunKept(nodeCount: nat, threadCount: nat, run: seq<Action>)
    ensures Inv(Exec(Init(nodeCount, threadCount), run))
  {
    if run != [] {
      RunKept(nodeCount, threadCount, run[..|run| - 1]);
      StepKept(Exec(Init(nodeCount, threadCount), run[..|run| - 1]), run[|run| - 1]);
    }
  }

  // ---- Main results ---------------------------------------------------------------------------------

  /** In every interleaving the shared list is acyclic: following the links from head_ visits distinct nodes, exactly
      those no client and no thread has, and ends in null. */
  lemma ListStaysAList(nodeCount: nat, threadCount: nat, run: seq<Action>, n: nat)
    ensures var s := Exec(Init(nodeCount, threadCount), run);
            && ListOk(s) && Walk(s.nodes, s.head, |s.nodes|) == s.list
            && (n < |s.nodes| ==> (n in s.list <==> s.nodes[n].owner.OnList?))
  {
    RunKept(nodeCount, threadCount, run);
    var s := Exec(Init(nodeCount, threadCount), run);
    WalkIsChain(s.nodes, s.list, OnList);
    if n < |s.nodes| {
      assert NodeOk(s, n);
    }
  }

  predicate InHand(th: Thread, n: nat) { n in th.chain || th.found == Some(n) }

  predicate AllReturned(s: State) {
    forall t :: 0 <= t < |s.threads| ==> s.threads[t].at.Idle? && s.threads[t].found.None?
  }

  /** No node is lost or handed out twice: one that no client owns is on the list or in the hands of exactly one thread
      that is still inside its call; once all calls have returned it is on the list. */
  lemma NoNodeLostOrDoubled(nodeCount: nat, threadCount: nat, run: seq<Action>, n: nat, t: nat, u: nat)
    ensures var s := Exec(Init(nodeCount, threadCount), run);
            && (n < |s.nodes| && !s.nodes[n].owner.Outside? ==>
                  n in s.list || exists k :: 0 <= k < |s.threads| && InHand(s.threads[k], n))
            && (n < |s.nodes| && !s.nodes[n].owner.Outside? && AllReturned(s) ==> n in s.list)
            && (t < |s.threads| && InHand(s.threads[t], n) ==>
                  && n !in s.list && n < |s.nodes| && !s.nodes[n].owner.Outside?
                  && (u < |s.threads| && u != t ==> !InHand(s.threads[u], n)))
            && (n < |s.nodes| && s.nodes[n].owner.Outside? ==> n !in s.list)
  {
    RunKept(nodeCount, threadCount, run);
    var s := Exec(Init(nodeCount, threadCount), run);
    if n < |s.nodes| {
      assert NodeOk(s, n);
      if s.nodes[n].owner.Held? {
        assert ThreadOk(s, s.nodes[n].owner.t);
        assert InHand(s.threads[s.nodes[n].owner.t], n);
      }
    }
    if t < |s.threads| {
      assert ThreadOk(s, t);
      if u < |s.threads| {
        assert ThreadOk(s, u);
      }
    }
  }
}
