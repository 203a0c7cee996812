/** affinity_baton.h: an await waits for a post, a post wakes everybody who waits, and a reset makes awaits wait
    again. */
module BatonCalls {
  import opened Common
  import opened Baton

  // ---- Awaits ------------------------------------------------------------------------------------------------

  /** An await goes on without suspending only at a step that finds the baton posted. */
  lemma PassedOnlyIfPosted(s: State, a: Action, w: nat)
    requires w < |s.waiters|
    ensures w < |Step(s, a).waiters|
    ensures !s.waiters[w].at.Passed? && Step(s, a).waiters[w].at.Passed? ==> s.word.posted
  {
  }

  predicate Unposted(s: State) {
    && !s.word.posted
    && (forall p :: 0 <= p < |s.posters| ==> s.posters[p].PIdle?)
    && (forall r :: 0 <= r < |s.resetters| ==> s.resetters[r].RIdle?)
    && (forall w :: 0 <= w < |s.waiters| ==> !s.waiters[w].at.Passed? && !s.waiters[w].at.Resumed?)
  }

  lemma UnpostedStep(s: State, a: Action)
    requires Unposted(s) && !a.Post? && !a.Destroy?
    ensures Unposted(Step(s, a))
  {
  }

  /** Without a post and without the destructor nobody gets past an await, in any run. */
  lemma {:induction false} NobodyPassesUnposted(waiterCount: nat, posterCount: nat, resetterCount: nat,
                                                run: seq<Action>, w: nat)
    requires forall i :: 0 <= i < |run| ==> !run[i].Post? && !run[i].Destroy?
    ensures var s := Exec(Init(waiterCount, posterCount, resetterCount), run);
            && Unposted(s)
            && (w < |s.waiters| ==> !s.waiters[w].at.Passed? && !s.waiters[w].at.Resumed?)
  {
    if run != [] {
      NobodyPassesUnposted(waiterCount, posterCount, resetterCount, run[..|run| - 1], w);
      UnpostedStep(Exec(Init(waiterCount, posterCount, resetterCount), run[..|run| - 1]), run[|run| - 1]);
    }
  }

  /** The steps of an await in a row. */
  function Await(s: State, w: nat): State {
    var r := RunWaiter(w, false);
    Step(Step(Step(s, r), r), r)
  }

  /** An undisturbed await on a baton that is not posted suspends, on top of those who wait already; */
  lemma AwaitSuspends(s: State, w: nat)
    requires Reachable(s) && !s.destroyed && w < |s.waiters| && s.waiters[w].at.WReady? && !s.word.posted
    ensures var s' := Await(s, w);
            && |s'.waiters| == |s.waiters| && s'.waiters[w].at.Suspended?
            && s'.stack == [w] + s.stack && s'.word == Word(Node(w), false)
            && s'.posters == s.posters && forall v :: 0 <= v < |s.waiters| && v != w ==> s'.waiters[v] == s.waiters[v]
  {
    var wt := s.waiters[w];
    var s1 := SetWaiter(s, w, wt.(at := WLoad));
    var s2 := SetWaiter(s, w, wt.(at := WCas, seen := s.word, next := s.word.head));
    assert Step(s, RunWaiter(w, false)) == s1;
    assert Step(s1, RunWaiter(w, false)) == s2;
  }

  /** on a posted one it goes on at once. */
  lemma AwaitPasses(s: State, w: nat, spurious: bool)
    requires !s.destroyed && w < |s.waiters| && s.waiters[w].at.WReady? && s.word.posted
    ensures Step(s, RunWaiter(w, spurious)) == SetWaiter(s, w, s.waiters[w].(at := Passed))
  {
  }

  // ---- Posts -------------------------------------------------------------------------------------------------

  lemma {:induction false} ExecAppend(s: State, run: seq<Action>, more: seq<Action>)
    ensures Exec(s, run + more) == Exec(Exec(s, run), more)
  {
    if more == [] {
      assert run + more == run;
    } else {
      var m := |more| - 1;
      ExecAppend(s, run, more[..m]);
      assert (run + more)[..|run + more| - 1] == run + more[..m];
    }
  }

  /** What a walk along `chain` does to the waiters. */
  predicate Walked(ws: seq<Waiter>, ws': seq<Waiter>, chain: seq<nat>) {
    && |ws'| == |ws|
    && (forall w :: 0 <= w < |ws| && w in chain ==> ws'[w].at.Resumed?)
    && (forall w :: 0 <= w < |ws| && w !in chain ==> ws'[w] == ws[w])
  }

  /** One round of the walk. */
  lemma WalkOne(s: State, p: nat, junk: Ref)
    requires Inv(s) && p < |s.posters| && s.posters[p].Walking? && s.posters[p].chain != []
    ensures var s', chain := Step(s, ResumeNext(p, junk)), s.posters[p].chain;
            && Inv(s') && s'.word == s.word && s'.stack == s.stack && |s'.posters| == |s.posters|
            && s'.posters[p].Walking? && s'.posters[p].chain == chain[1..]
            && chain[0] !in chain[1..] && Walked(s.waiters, s'.waiters, [chain[0]])
  {
    assert PosterOk(s, p);
    LinkedPop(s.waiters, s.posters[p].cur, s.posters[p].chain, With(p));
    StepKept(s, ResumeNext(p, junk));
  }

  lemma WalkEnd(s: State, p: nat, junk: Ref)
    requires Inv(s) && p < |s.posters| && s.posters[p].Walking? && s.posters[p].chain == []
    ensures Step(s, ResumeNext(p, junk)) == s.(posters := s.posters[p := PIdle])
  {
    assert PosterOk(s, p);
  }

  lemma WalkedMore(ws: seq<Waiter>, ws1: seq<Waiter>, ws2: seq<Waiter>, chain: seq<nat>)
    requires chain != [] && Walked(ws, ws1, [chain[0]]) && Walked(ws1, ws2, chain[1..]) && chain[0] !in chain[1..]
    ensures Walked(ws, ws2, chain)
  {
    assert chain == [chain[0]] + chain[1..];
  }

  /** Undisturbed, a poster resumes everybody on its chain and nobody else. */
  lemma {:induction false} WalkAlone(s: State, p: nat) returns (run: seq<Action>)
    requires Inv(s) && p < |s.posters| && s.posters[p].Walking?
    ensures forall i :: 0 <= i < |run| ==> run[i] == ResumeNext(p, Null)
    ensures var s' := Exec(s, run);
            && Walked(s.waiters, s'.waiters, s.posters[p].chain) && s'.word == s.word && s'.stack == s.stack
            && p < |s'.posters| && s'.posters[p].PIdle?
    decreases |s.posters[p].chain|
  {
    var a := ResumeNext(p, Null);
    assert Exec(s, []) == s && [a][..0] == [] && Exec(s, [a]) == Step(s, a);
    if s.posters[p].chain == [] {
      WalkEnd(s, p, Null);
      run := [a];
    } else {
      WalkOne(s, p, Null);
      var more := WalkAlone(Step(s, a), p);
      ExecAppend(s, [a], more);
      run := [a] + more;
      WalkedMore(s.waiters, Step(s, a).waiters, Exec(s, run).waiters, s.posters[p].chain);
    }
  }

  /** An undisturbed post leaves the baton posted and resumes everybody who waited on it and nobody else. */
  lemma PostAlone(s: State, p: nat) returns (run: seq<Action>)
    requires Reachable(s) && !s.destroyed && p < |s.posters| && s.posters[p].PIdle?
    ensures run != [] && run[0] == Post(p) && forall i :: 1 <= i < |run| ==> run[i] == ResumeNext(p, Null)
    ensures var s' := Exec(s, run);
            && s'.word == Word(Null, true) && s'.stack == [] && |s'.waiters| == |s.waiters|
            && (forall w :: 0 <= w < |s.waiters| && s.waiters[w].place.OnStack? ==> s'.waiters[w].at.Resumed?)
            && (forall w :: 0 <= w < |s.waiters| && !s.waiters[w].place.OnStack? ==> s'.waiters[w] == s.waiters[w])
  {
    ReachableInv(s);
    var s1 := Step(s, Post(p));
    StepKept(s, Post(p));
    var more := WalkAlone(s1, p);
    ExecAppend(s, [Post(p)], more);
    run := [Post(p)] + more;
    assert Exec(s, []) == s && [Post(p)][..0] == [] && Exec(s, [Post(p)]) == s1;
    forall w | 0 <= w < |s.waiters|
      ensures s.waiters[w].place.OnStack? <==> w in s.stack
    {
      assert WaiterOk(s, w);
    }
  }

  // ---- Resets ------------------------------------------------------------------------------------------------

  /** An undisturbed reset of a posted baton makes it unposted and touches nobody. */
  lemma ResetAlone(s: State, r: nat)
    requires Reachable(s) && !s.destroyed && r < |s.resetters| && s.resetters[r].RIdle? && s.word.posted
    ensures var a := RunResetter(r, false);
            Step(Step(s, a), a) == s.(word := EMPTY)
  {
    ReachableInv(s);
    var a, s1 := RunResetter(r, false), s.(resetters := s.resetters[r := RCas(s.word)]);
    assert Step(s, a) == s1;
    assert s1.resetters[r := RIdle] == s.resetters;
  }
}
