/** CentralFreeList of memory_pool.cc: a linked stack of free nodes of mixed sizes, and the list surgery of pop on
    linked nodes.  SharedFreeList has any number of concurrent pushes and pops. */
module CentralFreeList {

  class FreeNode {
    var size: nat
    var next: FreeNode?

    constructor (size: nat)
      ensures this.size == size && next == null
    {
      this.size := size;
      next := null;
    }
  }

  function LinkAt(spine: seq<FreeNode>, i: nat): FreeNode? { if i < |spine| then spine[i] else null }

  ghost predicate Distinct(spine: seq<FreeNode>) {
    forall i, j :: 0 <= i < j < |spine| ==> spine[i] != spine[j]
  }

  /** Following `next` from `head` visits the distinct nodes of `spine` and ends in null. */
  ghost predicate Chain(head: FreeNode?, spine: seq<FreeNode>)
    reads spine
  {
    && head == LinkAt(spine, 0) && Distinct(spine)
    && forall i {:trigger spine[i].next} :: 0 <= i < |spine| ==> spine[i].next == LinkAt(spine, i + 1)
  }

  ghost function Sizes(spine: seq<FreeNode>): seq<nat>
    reads spine
  {
    seq(|spine|, i requires 0 <= i < |spine| reads spine => spine[i].size)
  }

  /** The position of the first size of at least `min`; |sizes| if there is none. */
  function FirstFit(sizes: seq<nat>, min: nat): (f: nat)
    ensures f <= |sizes|
    ensures f < |sizes| ==> sizes[f] >= min
    ensures forall i :: 0 <= i < f ==> sizes[i] < min
  {
    if sizes == [] then 0
    else if sizes[0] >= min then 0
    else 1 + FirstFit(sizes[1..], min)
  }

  function Without<T>(q: seq<T>, i: nat): seq<T> { if i < |q| then q[..i] + q[i + 1..] else q }

  lemma WithoutSubset<T>(q: seq<T>, i: nat)
    ensures forall x :: x in Without(q, i) ==> x in q
  {
  }

  /** The links of `all` when the node at `f` has been taken out of the chain; no node has been if f > |all|. */
  ghost predicate LinkedPast(all: seq<FreeNode>, f: nat)
    reads all
  {
    && (forall j {:trigger all[j].next} :: 0 <= j < |all| && j + 1 != f ==> all[j].next == LinkAt(all, j + 1))
    && (0 < f <= |all| ==> all[f - 1].next == LinkAt(all, f + 1))
  }

  /** Nodes linked past position f form the chain without the node at f. */
  lemma Unlinked(all: seq<FreeNode>, f: nat, chain: FreeNode?)
    requires Distinct(all) && f <= |all| && chain == LinkAt(all, if f == 0 < |all| then 1 else 0)
    requires LinkedPast(all, f)
    ensures Chain(chain, Without(all, f))
  {
    var spine := Without(all, f);
    forall i | 0 <= i < |spine|
      ensures spine[i].next == LinkAt(spine, i + 1)
    {
      var j := if i < f then i else i + 1;
      assert spine[i] == all[j];
    }
  }

  /** Takes the node at position f out of the chain: its predecessor, or the chain's start, skips it. */
  method Unlink(prev: FreeNode?, curr: FreeNode, first: FreeNode, ghost all: seq<FreeNode>, ghost f: nat)
    returns (chain: FreeNode?)
    requires Distinct(all) && first == LinkAt(all, 0) && LinkedPast(all, |all| + 1)
    requires f < |all| && curr == all[f] && prev == (if f == 0 then null else all[f - 1])
    modifies all`next
    ensures chain == LinkAt(all, if f == 0 then 1 else 0) && LinkedPast(all, f)
  {
    chain := first;
    if prev != null {
      prev.next := curr.next;
    } else {
      chain := curr.next;
    }
  }

  /** The scan has passed i nodes: nothing has changed up to position f, where the node is linked past. */
  ghost predicate Scanned(first: FreeNode?, all: seq<FreeNode>, f: nat, i: nat, prev: FreeNode?, found: FreeNode?,
                          chain: FreeNode?)
    reads all
  {
    if i <= f then
      i <= |all| && found == null && chain == first && prev == (if i == 0 then null else all[i - 1]) &&
      LinkedPast(all, |all| + 1)
    else found == LinkAt(all, f) && chain == LinkAt(all, if f == 0 then 1 else 0) && LinkedPast(all, f)
  }

  /** Only the node at position f is taken. */
  lemma FitsAt(first: FreeNode?, all: seq<FreeNode>, f: nat, i: nat, prev: FreeNode?, found: FreeNode?,
               chain: FreeNode?, sizes: seq<nat>, min: nat)
    requires Scanned(first, all, f, i, prev, found, chain) && i < |all| == |sizes| && f == FirstFit(sizes, min)
    ensures found == null && sizes[i] >= min <==> i == f
  {
  }

  /** Passing any other node. */
  lemma Passed(first: FreeNode?, all: seq<FreeNode>, f: nat, i: nat, prev: FreeNode?, found: FreeNode?,
               chain: FreeNode?)
    requires Scanned(first, all, f, i, prev, found, chain) && i < |all| && i != f
    ensures Scanned(first, all, f, i + 1, all[i], found, chain)
  {
  }

  /** Links in front of the scan are as they were. */
  lemma NextAt(first: FreeNode?, all: seq<FreeNode>, f: nat, i: nat, prev: FreeNode?, found: FreeNode?,
               chain: FreeNode?)
    requires Scanned(first, all, f, i + 1, prev, found, chain) && i < |all|
    ensures all[i].next == LinkAt(all, i + 1)
  {
  }

  /** One round of the scanning loop of pop. */
  method Visit(first: FreeNode, ghost all: seq<FreeNode>, min: nat, ghost sizes: seq<nat>, ghost f: nat, ghost i: nat,
               prev: FreeNode?, curr: FreeNode, found: FreeNode?, chain: FreeNode?)
    returns (prev': FreeNode?, found': FreeNode?, chain': FreeNode?)
    requires Distinct(all) && first == LinkAt(all, 0) && f == FirstFit(sizes, min) && i < |sizes| == |all|
    requires curr == all[i] && curr.size == sizes[i] && Scanned(first, all, f, i, prev, found, chain)
    modifies all`next
    ensures Scanned(first, all, f, i + 1, prev', found', chain')
  {
    prev', found', chain' := prev, found, chain;
    FitsAt(first, all, f, i, prev, found, chain, sizes, min);
    if found == null && curr.size >= min {
      found' := curr;
      chain' := Unlink(prev, curr, first, all, f);
    } else {
      Passed(first, all, f, i, prev, found, chain);
      prev' := curr;
    }
  }

  /** The scanning loop of pop: the first node that fits is linked past. */
  method Scan(first: FreeNode, ghost all: seq<FreeNode>, min: nat, ghost sizes: seq<nat>, ghost f: nat)
    returns (found: FreeNode?, chain: FreeNode?)
    requires Distinct(all) && first == LinkAt(all, 0) && LinkedPast(all, |all| + 1)
    requires f == FirstFit(sizes, min) && |sizes| == |all| && forall j :: 0 <= j < |all| ==> all[j].size == sizes[j]
    modifies all`next
    ensures found == LinkAt(all, f) && chain == LinkAt(all, if f == 0 then 1 else 0)
    ensures LinkedPast(all, if f < |all| then f else |all| + 1)
  {
    found, chain := null, first;
    var prev: FreeNode?, curr: FreeNode? := null, first;
    ghost var i := 0;
    while curr != null
      invariant 0 <= i <= |all| && curr == LinkAt(all, i)
      invariant Scanned(first, all, f, i, prev, found, chain)
      decreases |all| - i
    {
      prev, found, chain := Visit(first, all, min, sizes, f, i, prev, curr, found, chain);
      NextAt(first, all, f, i, prev, found, chain);
      curr := curr.next;
      i := i + 1;
    }
  }

  /** The same on a chain no one else can reach: what is left is the chain without the first node that fits. */
  method TakeFirstFit(first: FreeNode, ghost all: seq<FreeNode>, min: nat, ghost f: nat)
    returns (found: FreeNode?, chain: FreeNode?)
    requires Chain(first, all) && f == FirstFit(Sizes(all), min)
    modifies all`next
    ensures found == LinkAt(all, f) && Chain(chain, Without(all, f))
  {
    found, chain := Scan(first, all, min, Sizes(all), f);
    Unlinked(all, f, chain);
  }

  method Tail(chain: FreeNode, ghost spine: seq<FreeNode>) returns (tail: FreeNode)
    requires Chain(chain, spine)
    ensures tail == spine[|spine| - 1]
  {
    tail := chain;
    ghost var j := 0;
    while tail.next != null
      invariant 0 <= j < |spine| && tail == spine[j]
      decreases |spine| - j
    {
      tail := tail.next;
      j := j + 1;
    }
  }

  /** Two chains joined by the last link of the first. */
  lemma Joined(head: FreeNode?, a: seq<FreeNode>, b: seq<FreeNode>)
    requires a != [] && head == a[0] && Distinct(a) && Distinct(b) && forall n :: n in a ==> n !in b
    requires forall i :: 0 <= i < |a| - 1 ==> a[i].next == a[i + 1]
    requires a[|a| - 1].next == LinkAt(b, 0) && forall i :: 0 <= i < |b| ==> b[i].next == LinkAt(b, i + 1)
    ensures Chain(head, a + b)
  {
    var c := a + b;
    forall i, j | 0 <= i < j < |c|
      ensures c[i] != c[j]
    {
      assert i < |a| <= j ==> c[i] in a && c[j] in b;
    }
    forall i | 0 <= i < |c|
      ensures c[i].next == LinkAt(c, i + 1)
    {
      if i >= |a| {
        assert c[i] == b[i - |a|];
      }
    }
  }

  class List {
    var head: FreeNode?
    ghost var spine: seq<FreeNode>

    ghost predicate Valid()
      reads this, spine
    {
      Chain(head, spine)
    }

    constructor ()
      ensures Valid() && spine == []
    {
      head, spine := null, [];
    }

    method Push(node: FreeNode, size: nat)
      requires Valid() && node !in spine
      modifies this, node
      ensures Valid() && spine == [node] + old(spine) && node.size == size
    {
      node.size := size;
      node.next := head;
      head := node;
      spine := [node] + spine;
      assert forall i :: 0 < i < |spine| ==> spine[i] == old(spine)[i - 1] && spine[i] != node;
    }

    /** Puts a chain back in front of whatever the list holds by then. */
    method PutBack(chain: FreeNode?, ghost rest: seq<FreeNode>)
      requires Valid() && Chain(chain, rest) && forall n :: n in rest ==> n !in spine
      modifies this, rest`next
      ensures Valid() && spine == rest + old(spine)
    {
      if chain != null {
        var tail := Tail(chain, rest);
        assert tail in rest && tail !in spine;
        assert forall i :: 0 <= i < |spine| ==> spine[i] in spine;
        tail.next := head;
        head := chain;
        Joined(chain, rest, spine);
      }
      spine := rest + spine;
    }

    /** The part of pop after the exchange: scan the chain taken, put the rest back. */
    method TakeFrom(first: FreeNode, ghost all: seq<FreeNode>, min: nat, ghost f: nat) returns (found: FreeNode?)
      requires head == null && spine == [] && Chain(first, all) && f == FirstFit(Sizes(all), min)
      modifies this, all`next
      ensures Valid() && found == LinkAt(all, f) && spine == Without(all, f)
    {
      var chain;
      found, chain := TakeFirstFit(first, all, min, f);
      ghost var rest := Without(all, f);
      WithoutSubset(all, f);
      PutBack(chain, rest);
      assert rest + [] == rest;
    }

    /** Takes the first node that fits and leaves the others in their order; no size changes. */
    method Pop(min: nat) returns (found: FreeNode?)
      requires Valid()
      modifies this, spine`next
      ensures Valid()
      ensures var f := FirstFit(old(Sizes(spine)), min);
              found == LinkAt(old(spine), f) && spine == Without(old(spine), f)
    {
      var first := head;
      ghost var all, f := spine, FirstFit(Sizes(spine), min);
      head, spine := null, [];
      if first == null {
        return null;
      }
      found := TakeFrom(first, all, min, f);
    }
  }
}
