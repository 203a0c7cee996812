/** affinity_baton.h and the post/resume_chain part of worker.cc: one atomic word holding a posted bit and the head of
    a linked stack of waiter nodes.  Any number of awaiting coroutines, posters and resetters interleave.  A coroutine
    may await again and again, and then pushes the same node, so an address can come back into the word.  The
    destructor may run once, after which the word is not touched again. */
module Baton {
  import opened Common

  /** The word: clear_posted(word) is `head`, the low bit is `posted`. */
  datatype Word = Word(head: Ref, posted: bool)

  /** co_await: test ready(), load the word, push by compare-exchange.  `Passed` continued without suspending; from
      there and from `Resumed` the coroutine may await again. */
  datatype WaiterAt = WReady | WLoad | WCas | Suspended | Passed | Resumed

  /** Where a suspended waiter's node is: on the baton's stack or on the chain poster p is walking. */
  datatype Place = Nowhere | OnStack | With(p: nat)

  /** A waiter and its node (`next`).  History: where the node is, how often it was pushed and handed over, how many
      exchanges of the word preceded its latest push, and which exchange its latest hand-over belongs to. */
  datatype Waiter = Waiter(at: WaiterAt, seen: Word, next: Ref,
                           place: Place, pushes: nat, handovers: nat, pushEpoch: nat, handedBy: nat)

  /** A post, post_direct or the destructor after its exchange: `cur` is the next node to resume.  `chain` and
      `epoch` (the number of its exchange) are history. */
  datatype Poster = PIdle | Walking(cur: Ref, chain: seq<nat>, epoch: nat)

  datatype Resetter = RIdle | RCas(seen: Word)

  datatype State = State(word: Word, destroyed: bool, waiters: seq<Waiter>, posters: seq<Poster>,
                         resetters: seq<Resetter>, stack: seq<nat>, exchanges: nat)

  datatype Action =
    | RunWaiter(w: nat, spurious: bool)
    | Post(p: nat)
    | Destroy(p: nat)
    | ResumeNext(p: nat, junk: Ref)
    | RunResetter(r: nat, spurious: bool)

  const EMPTY: Word := Word(Null, false)

  function SetWaiter(s: State, w: nat, wt: Waiter): State
    requires w < |s.waiters|
  {
    s.(waiters := s.waiters[w := wt])
  }

  /** The loop head of await_suspend for a value `seen` of the word: give up if posted, else aim at pushing. */
  function Aim(wt: Waiter, seen: Word): Waiter {
    if seen.posted then wt.(at := Passed, seen := seen) else wt.(at := WCas, seen := seen, next := seen.head)
  }

  function WaiterStep(s: State, w: nat, spurious: bool): State
    requires w < |s.waiters|
  {
    var wt := s.waiters[w];
    match wt.at
    case WReady => SetWaiter(s, w, wt.(at := if s.word.posted then Passed else WLoad))
    case WLoad => SetWaiter(s, w, Aim(wt, s.word))
    case WCas =>
      if spurious || s.word != wt.seen then SetWaiter(s, w, Aim(wt, s.word))
      else SetWaiter(s, w, wt.(at := Suspended, place := OnStack, pushes := wt.pushes + 1, pushEpoch := s.exchanges)).(
        word := Word(Node(w), false), stack := [w] + s.stack)
    case Suspended => s
    case _ => SetWaiter(s, w, wt.(at := WReady))
  }

  /** The exchange of post (new value: posted, no chain) or of the destructor (new value: empty). */
  function Exchange(s: State, p: nat, word: Word): State
    requires p < |s.posters|
  {
    s.(word := word,
       posters := s.posters[p := Walking(s.word.head, s.stack, s.exchanges + 1)],
       waiters := seq(|s.waiters|, w requires 0 <= w < |s.waiters| =>
         if s.waiters[w].place.OnStack? then s.waiters[w].(place := With(p)) else s.waiters[w]),
       stack := [], exchanges := s.exchanges + 1)
  }

  /** One round of resume_chain: read `next`, hand the waiter over, go on.  From the hand-over on the node's memory
      belongs to the resumed coroutine, which may overwrite it with anything. */
  function WalkStep(s: State, p: nat, junk: Ref): State
    requires p < |s.posters| && s.posters[p].Walking?
  {
    var Walking(cur, chain, epoch) := s.posters[p];
    if cur.Null? then s.(posters := s.posters[p := PIdle])
    else if cur.n >= |s.waiters| then s
    else
      var wt := s.waiters[cur.n];
      SetWaiter(s, cur.n, wt.(at := Resumed, next := junk, place := Nowhere,
                              handovers := wt.handovers + 1, handedBy := epoch)).(
        posters := s.posters[p := Walking(wt.next, if chain == [] then [] else chain[1..], epoch)])
  }

  function ResetStep(s: State, r: nat, spurious: bool): State
    requires r < |s.resetters|
  {
    match s.resetters[r]
    case RIdle => s.(resetters := s.resetters[r := if s.word.posted then RCas(s.word) else RIdle])
    case RCas(seen) =>
      if spurious || s.word != seen then
        s.(resetters := s.resetters[r := if s.word.posted then RCas(s.word) else RIdle])
      else s.(word := Word(seen.head, false), resetters := s.resetters[r := RIdle])
  }

  function Step(s: State, a: Action): State {
    match a
    case RunWaiter(w, spurious) => if w < |s.waiters| && !s.destroyed then WaiterStep(s, w, spurious) else s
    case Post(p) =>
      if p < |s.posters| && s.posters[p].PIdle? && !s.destroyed then Exchange(s, p, Word(Null, true)) else s
    case Destroy(p) =>
      if p < |s.posters| && s.posters[p].PIdle? && !s.destroyed then Exchange(s, p, EMPTY).(destroyed := true) else s
    case ResumeNext(p, junk) => if p < |s.posters| && s.posters[p].Walking? then WalkStep(s, p, junk) else s
    case RunResetter(r, spurious) => if r < |s.resetters| && !s.destroyed then ResetStep(s, r, spurious) else s
  }

  function Init(waiterCount: nat, posterCount: nat, resetterCount: nat): State {
    State(EMPTY, false, seq(waiterCount, _ => Waiter(WReady, EMPTY, Null, Nowhere, 0, 0, 0, 0)),
          seq(posterCount, _ => PIdle), seq(resetterCount, _ => RIdle), [], 0)
  }

  function Exec(s: State, run: seq<Action>): State {
    if run == [] then s else Step(Exec(s, run[..|run| - 1]), run[|run| - 1])
  }

  // ---- What every run keeps -------------------------------------------------------------------------

  /** Following `next` from `head` visits exactly `chain`: distinct waiters, all at `place`. */
  predicate Linked(ws: seq<Waiter>, head: Ref, chain: seq<nat>, place: Place) {
    && head == RefAt(chain, 0)
    && (forall i :: 0 <= i < |chain| ==>
          chain[i] < |ws| && ws[chain[i]].place == place && ws[chain[i]].next == RefAt(chain, i + 1))
    && (forall i, j :: 0 <= i < j < |chain| ==> chain[i] != chain[j])
  }

  predicate WaiterOk(s: State, w: nat)
    requires w < |s.waiters|
  {
    var wt := s.waiters[w];
    && (wt.place.Nowhere? <==> !wt.at.Suspended?)
    && wt.pushes == wt.handovers + (if wt.at.Suspended? then 1 else 0)
    && (wt.pushes > 0 && !wt.at.Suspended? ==> wt.handedBy == wt.pushEpoch + 1)
    && (wt.place.OnStack? ==> w in s.stack && wt.pushEpoch == s.exchanges)
    && (wt.place.With? ==>
          && wt.place.p < |s.posters| && s.posters[wt.place.p].Walking?
          && w in s.posters[wt.place.p].chain && s.posters[wt.place.p].epoch == wt.pushEpoch + 1)
    && (wt.at.WCas? ==> !wt.seen.posted && wt.next == wt.seen.head)
  }

  predicate PosterOk(s: State, p: nat)
    requires p < |s.posters|
  {
    s.posters[p].Walking? ==> Linked(s.waiters, s.posters[p].cur, s.posters[p].chain, With(p))
  }

  predicate Inv(s: State) {
    && (s.word.posted ==> s.word.head.Null?)
    && Linked(s.waiters, s.word.head, s.stack, OnStack)
    && (forall w :: 0 <= w < |s.waiters| ==> WaiterOk(s, w))
    && (forall p :: 0 <= p < |s.posters| ==> PosterOk(s, p))
  }

  /** A chain survives writes to nodes that are not on it. */
  lemma LinkedFrame(ws: seq<Waiter>, ws': seq<Waiter>, head: Ref, chain: seq<nat>, place: Place)
    requires Linked(ws, head, chain, place) && |ws'| == |ws|
    requires forall w :: 0 <= w < |ws| && ws[w].place == place && w in chain ==>
               ws'[w].place == place && ws'[w].next == ws[w].next
    ensures Linked(ws', head, chain, place)
  {
    forall i | 0 <= i < |chain|
      ensures ws'[chain[i]].place == place && ws'[chain[i]].next == RefAt(chain, i + 1)
    {
      assert chain[i] in chain;
    }
  }

  lemma LinkedPush(ws: seq<Waiter>, head: Ref, chain: seq<nat>, place: Place, w: nat)
    requires Linked(ws, head, chain, place)
    requires w < |ws| && ws[w].place == place && ws[w].next == head && w !in chain
    ensures Linked(ws, Node(w), [w] + chain, place)
  {
    var longer := [w] + chain;
    forall i | 0 <= i < |longer|
      ensures longer[i] < |ws| && ws[longer[i]].place == place && ws[longer[i]].next == RefAt(longer, i + 1)
    {
      assert i > 0 ==> longer[i] == chain[i - 1];
    }
  }

  lemma LinkedPop(ws: seq<Waiter>, head: Ref, chain: seq<nat>, place: Place)
    requires Linked(ws, head, chain, place) && chain != []
    ensures head == Node(chain[0]) && chain[0] < |ws| && chain[0] !in chain[1..]
    ensures Linked(ws, ws[chain[0]].next, chain[1..], place)
  {
    var rest := chain[1..];
    forall i | 0 <= i < |rest|
      ensures rest[i] < |ws| && ws[rest[i]].place == place && ws[rest[i]].next == RefAt(rest, i + 1)
    {
      assert rest[i] == chain[i + 1];
    }
  }

  /** The waiter's own moves before it is on the stack. */
  lemma WaiterMoveKept(s: State, w: nat, spurious: bool)
    requires Inv(s) && w < |s.waiters|
    requires !(s.waiters[w].at.WCas? && !spurious && s.word == s.waiters[w].seen)
    ensures Inv(WaiterStep(s, w, spurious))
  {
    var s' := WaiterStep(s, w, spurious);
    WaiterMoveFrame(s, w, spurious);
    LinkedFrame(s.waiters, s'.waiters, s.word.head, s.stack, OnStack);
    PostersKept(s, s');
  }

  /** Such a move changes one waiter, whose node is on no chain. */
  lemma WaiterMoveFrame(s: State, w: nat, spurious: bool)
    requires w < |s.waiters| && forall v :: 0 <= v < |s.waiters| ==> WaiterOk(s, v)
    requires !(s.waiters[w].at.WCas? && !spurious && s.word == s.waiters[w].seen)
    ensures var s' := WaiterStep(s, w, spurious);
            && s' == s.(waiters := s'.waiters) && |s'.waiters| == |s.waiters|
            && (forall v :: 0 <= v < |s.waiters| ==> WaiterOk(s', v))
            && forall v :: 0 <= v < |s.waiters| && !s.waiters[v].place.Nowhere? ==> s'.waiters[v] == s.waiters[v]
  {
    var s' := WaiterStep(s, w, spurious);
    assert WaiterOk(s, w);
    forall v | 0 <= v < |s'.waiters|
      ensures WaiterOk(s', v)
    {
      assert WaiterOk(s, v);
    }
  }

  /** Chains being walked survive a step that leaves their nodes alone. */
  lemma PostersKept(s: State, s': State)
    requires Inv(s) && |s'.waiters| == |s.waiters| && s'.posters == s.posters
    requires forall w :: 0 <= w < |s.waiters| && s.waiters[w].place.With? ==>
               s'.waiters[w].place == s.waiters[w].place && s'.waiters[w].next == s.waiters[w].next
    ensures forall p :: 0 <= p < |s'.posters| ==> PosterOk(s', p)
  {
    forall p | 0 <= p < |s'.posters|
      ensures PosterOk(s', p)
    {
      assert PosterOk(s, p);
      if s.posters[p].Walking? {
        LinkedFrame(s.waiters, s'.waiters, s.posters[p].cur, s.posters[p].chain, With(p));
      }
    }
  }

  lemma PushKept(s: State, w: nat)
    requires Inv(s) && w < |s.waiters| && s.waiters[w].at.WCas? && s.word == s.waiters[w].seen
    ensures Inv(WaiterStep(s, w, false))
  {
    var s' := WaiterStep(s, w, false);
    assert WaiterOk(s, w);
    assert w !in s.stack;
    LinkedFrame(s.waiters, s'.waiters, s.word.head, s.stack, OnStack);
    LinkedPush(s'.waiters, s.word.head, s.stack, OnStack, w);
    forall v | 0 <= v < |s'.waiters|
      ensures WaiterOk(s', v)
    {
      assert WaiterOk(s, v);
    }
    PostersKept(s, s');
  }

  lemma ExchangeKept(s: State, p: nat, word: Word)
    requires Inv(s) && p < |s.posters| && s.posters[p].PIdle? && word.head.Null?
    ensures Inv(Exchange(s, p, word))
  {
    var s' := Exchange(s, p, word);
    forall v | 0 <= v < |s'.waiters|
      ensures WaiterOk(s', v)
    {
      assert WaiterOk(s, v);
    }
    forall q | 0 <= q < |s'.posters|
      ensures PosterOk(s', q)
    {
      assert PosterOk(s, q);
    }
  }

  lemma WalkKept(s: State, p: nat, junk: Ref)
    requires Inv(s) && p < |s.posters| && s.posters[p].Walking? && s.posters[p].cur.Node?
    ensures Inv(WalkStep(s, p, junk))
  {
    var s' := WalkStep(s, p, junk);
    var Walking(cur, chain, epoch) := s.posters[p];
    assert PosterOk(s, p);
    LinkedPop(s.waiters, cur, chain, With(p));
    LinkedFrame(s.waiters, s'.waiters, s.waiters[cur.n].next, chain[1..], With(p));
    LinkedFrame(s.waiters, s'.waiters, s.word.head, s.stack, OnStack);
    WalkWaiters(s, p, junk);
    forall q | 0 <= q < |s'.posters|
      ensures PosterOk(s', q)
    {
      assert PosterOk(s, q);
      if q != p && s.posters[q].Walking? {
        LinkedFrame(s.waiters, s'.waiters, s.posters[q].cur, s.posters[q].chain, With(q));
      }
    }
  }

  lemma WalkWaiters(s: State, p: nat, junk: Ref)
    requires Inv(s) && p < |s.posters| && s.posters[p].Walking? && s.posters[p].cur.Node?
    ensures forall v :: 0 <= v < |s.waiters| ==> WaiterOk(WalkStep(s, p, junk), v)
  {
    var s' := WalkStep(s, p, junk);
    var Walking(cur, chain, epoch) := s.posters[p];
    assert PosterOk(s, p);
    LinkedPop(s.waiters, cur, chain, With(p));
    forall v | 0 <= v < |s.waiters|
      ensures WaiterOk(s', v)
    {
      assert WaiterOk(s, v);
      assert v in chain && v != chain[0] ==> v in chain[1..];
    }
  }

  lemma FinishKept(s: State, p: nat, junk: Ref)
    requires Inv(s) && p < |s.posters| && s.posters[p].Walking? && s.posters[p].cur.Null?
    ensures Inv(WalkStep(s, p, junk))
  {
    var s' := WalkStep(s, p, junk);
    assert PosterOk(s, p);
    forall v | 0 <= v < |s.waiters|
      ensures WaiterOk(s', v)
    {
      assert WaiterOk(s, v);
    }
    forall q | 0 <= q < |s'.posters|
      ensures PosterOk(s', q)
    {
      assert PosterOk(s, q);
    }
  }

  lemma ResetKept(s: State, r: nat, spurious: bool)
    requires Inv(s) && r < |s.resetters|
    ensures Inv(ResetStep(s, r, spurious))
  {
    var s' := ResetStep(s, r, spurious);
    forall v | 0 <= v < |s.waiters|
      ensures WaiterOk(s', v)
    {
      assert WaiterOk(s, v);
    }
    PostersKept(s, s');
  }

  lemma StepKept(s: State, a: Action)
    requires Inv(s)
    ensures Inv(Step(s, a))
  {
    if Step(s, a) != s {
      match a
      case RunWaiter(w, spurious) =>
        if s.waiters[w].at.WCas? && !spurious && s.word == s.waiters[w].seen {
          PushKept(s, w);
        } else {
          WaiterMoveKept(s, w, spurious);
        }
      case Post(p) => ExchangeKept(s, p, Word(Null, true));
      case Destroy(p) => DestroyKept(s, p);
      case ResumeNext(p, junk) =>
        if s.posters[p].cur.Node? {
          WalkKept(s, p, junk);
        } else {
          FinishKept(s, p, junk);
        }
      case RunResetter(r, spurious) => ResetKept(s, r, spurious);
    }
  }

  lemma DestroyKept(s: State, p: nat)
    requires Inv(s) && p < |s.posters| && s.posters[p].PIdle?
    ensures Inv(Exchange(s, p, EMPTY).(destroyed := true))
  {
    ExchangeKept(s, p, EMPTY);
    var t := Exchange(s, p, EMPTY);
    var t' := t.(destroyed := true);
    forall v | 0 <= v < |t.waiters|
      ensures WaiterOk(t', v)
    {
      assert WaiterOk(t, v);
    }
    PostersKept(t, t');
  }

  lemma {:induction false} RunKept(s: State, run: seq<Action>)
    requires Inv(s)
    ensures Inv(Exec(s, run))
  {
    if run != [] {
      RunKept(s, run[..|run| - 1]);
      StepKept(Exec(s, run[..|run| - 1]), run[|run| - 1]);
    }
  }

  ghost predicate Reachable(s: State) {
    exists waiterCount: nat, posterCount: nat, resetterCount: nat, run: seq<Action> ::
      Reaches(waiterCount, posterCount, resetterCount, run, s)
  }

  ghost predicate Reaches(waiterCount: nat, posterCount: nat, resetterCount: nat, run: seq<Action>, s: State) {
    s == Exec(Init(waiterCount, posterCount, resetterCount), run)
  }

  lemma ReachableInv(s: State)
    requires Reachable(s)
    ensures Inv(s)
  {
    var waiterCount: nat, posterCount: nat, resetterCount: nat, run: seq<Action> :|
      Reaches(waiterCount, posterCount, resetterCount, run, s);
    RunKept(Init(waiterCount, posterCount, resetterCount), run);
  }

  // ---- Main results ---------------------------------------------------------------------------------

  /** The word is either posted with no chain, or the head of a chain of distinct waiters that ends in null and
      holds exactly the suspended waiters no post has collected yet. */
  lemma WordIsStackOrPosted(s: State)
    requires Reachable(s)
    ensures s.word.posted ==> s.word.head.Null? && s.stack == []
    ensures Linked(s.waiters, s.word.head, s.stack, OnStack)
    ensures forall w :: 0 <= w < |s.waiters| ==> (s.waiters[w].place.OnStack? <==> w in s.stack)
    ensures forall w :: 0 <= w < |s.waiters| && s.waiters[w].at.Suspended? && !s.waiters[w].place.OnStack? ==>
              exists p :: 0 <= p < |s.posters| && s.posters[p].Walking? && w in s.posters[p].chain
  {
    ReachableInv(s);
    forall w | 0 <= w < |s.waiters|
      ensures s.waiters[w].place.OnStack? <==> w in s.stack
    {
      assert WaiterOk(s, w);
    }
    forall w | 0 <= w < |s.waiters| && s.waiters[w].at.Suspended? && !s.waiters[w].place.OnStack?
      ensures exists p :: 0 <= p < |s.posters| && s.posters[p].Walking? && w in s.posters[p].chain
    {
      assert WaiterOk(s, w);
      var p := s.waiters[w].place.p;
      assert s.posters[p].Walking?;
    }
  }

  /** Every suspension is handed over exactly once: over any number of awaits with the same node, the hand-overs of a
      waiter that is not suspended equal its pushes, and those of a suspended one lack only the latest.  The latest
      hand-over was by the first exchange (post or destructor) after the latest push. */
  lemma HandedOverOnce(s: State, w: nat)
    requires Reachable(s) && w < |s.waiters|
    ensures var wt := s.waiters[w];
            && wt.pushes == wt.handovers + (if wt.at.Suspended? then 1 else 0)
            && (wt.pushes > 0 && !wt.at.Suspended? ==> wt.handedBy == wt.pushEpoch + 1)
  {
    ReachableInv(s);
    assert WaiterOk(s, w);
  }

  /** When the baton is posted or destroyed and every poster has finished its walk, nobody is left suspended. */
  lemma PostLeavesNobody(s: State, w: nat)
    requires Reachable(s) && w < |s.waiters|
    requires s.word.head.Null? && forall p :: 0 <= p < |s.posters| ==> s.posters[p].PIdle?
    ensures !s.waiters[w].at.Suspended?
  {
    ReachableInv(s);
    assert WaiterOk(s, w);
  }

  /** The successful compare-exchange of a reset. */
  predicate Clears(s: State, a: Action) { s.word.posted && !s.destroyed && !Step(s, a).word.posted && a.RunResetter? }

  /** After a post, as long as no reset takes effect, no waiter is pushed, however often it awaits. */
  lemma {:induction false} NoSuspendUntilReset(s: State, run: seq<Action>, w: nat)
    requires Reachable(s) && (s.word.posted || s.destroyed) && w < |s.waiters|
    requires forall m :: 0 <= m < |run| ==> !Clears(Exec(s, run[..m]), run[m])
    ensures |Exec(s, run).waiters| == |s.waiters|
    ensures Exec(s, run).word.posted || Exec(s, run).destroyed
    ensures Exec(s, run).waiters[w].pushes == s.waiters[w].pushes
    ensures Exec(s, run).waiters[w].at.Suspended? ==> s.waiters[w].at.Suspended?
  {
    if run != [] {
      var m := |run| - 1;
      forall j | 0 <= j < m
        ensures !Clears(Exec(s, run[..m][..j]), run[..m][j])
      {
        assert run[..m][..j] == run[..j];
      }
      NoSuspendUntilReset(s, run[..m], w);
      assert !Clears(Exec(s, run[..m]), run[m]);
      ReachableInv(s);
      RunKept(s, run[..m]);
      PostedStep(Exec(s, run[..m]), run[m], w);
    }
  }

  lemma PostedStep(t: State, a: Action, w: nat)
    requires Inv(t) && (t.word.posted || t.destroyed) && w < |t.waiters| && !Clears(t, a)
    ensures |Step(t, a).waiters| == |t.waiters|
    ensures Step(t, a).word.posted || Step(t, a).destroyed
    ensures Step(t, a).waiters[w].pushes == t.waiters[w].pushes
    ensures Step(t, a).waiters[w].at.Suspended? ==> t.waiters[w].at.Suspended?
  {
    if a.RunWaiter? && a.w < |t.waiters| {
      assert WaiterOk(t, a.w);
    }
  }
}
