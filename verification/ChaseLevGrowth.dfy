/** Growth of the work-stealing deque: the owner deletes the array it replaces, while a thief that has loaded its
    address may still have to read it.  When that can happen, in terms of how many items the deque holds at a push. */
module ChaseLevGrowth {
  import opened ChaseLev

  /** Some thief is about to read an array that has been replaced, and so deleted. */
  predicate StaleRead(s: State) {
    exists w :: 0 <= w < |s.thieves| && s.thieves[w].at.TReadCell? && s.thieves[w].a + 1 < |s.rings|
  }

  /** Action `a` in state `s` is a push that finds at least m items in the deque. */
  predicate Crowded(s: State, a: Action, m: nat) { a.CallPush? && s.owner.at.OIdle? && s.bottom - s.top >= m }

  /** Every push of the run finds fewer than m items in the deque. */
  predicate Roomy(s0: State, run: seq<Action>, m: nat)
    requires Shape(s0)
  {
    run == [] ||
    (Roomy(s0, run[..|run| - 1], m) && !Crowded(Exec(s0, run[..|run| - 1]), run[|run| - 1], m))
  }

  /** If the run is roomy, no thief comes to read a deleted array. */
  predicate NeverStale(cap: nat, thiefCount: nat, run: seq<Action>, m: nat)
    requires cap > 0
  {
    Roomy(Init(cap, thiefCount), run, m) ==> !StaleRead(Exec(Init(cap, thiefCount), run))
  }

  lemma RoomyNext(s0: State, run: seq<Action>, a: Action, m: nat)
    requires Shape(s0) && Roomy(s0, run, m) && !Crowded(Exec(s0, run), a, m)
    ensures Roomy(s0, run + [a], m)
  {
    assert (run + [a])[..|run|] == run;
  }

  // ---- With room no array is replaced -----------------------------------------------------------------------

  /** The first array is still in use, and a push under way has found room in it. */
  predicate FirstArray(s: State, cap: nat)
    requires Shape(s)
  {
    |s.rings| == 1 && s.rings[0].cap == cap && (s.owner.at.PushCheck? ==> s.owner.b - s.owner.t < cap)
  }

  lemma FirstArrayStep(s: State, a: Action, cap: nat, m: nat)
    requires Shape(s) && FirstArray(s, cap) && m <= cap && !Crowded(s, a, m)
    ensures FirstArray(Step(s, a), cap)
  {
  }

  lemma {:induction false} NoGrowth(cap: nat, thiefCount: nat, run: seq<Action>, m: nat)
    requires cap > 0 && m <= cap && Roomy(Init(cap, thiefCount), run, m)
    ensures FirstArray(Exec(Init(cap, thiefCount), run), cap)
  {
    var s0 := Init(cap, thiefCount);
    if run != [] {
      NoGrowth(cap, thiefCount, run[..|run| - 1], m);
      FirstArrayStep(Exec(s0, run[..|run| - 1]), run[|run| - 1], cap, m);
    }
  }

  // ---- Without room one is, and a thief may be about to read it ----------------------------------------------

  lemma OneMore(s0: State, run: seq<Action>, a: Action)
    requires Shape(s0)
    ensures Exec(s0, run + [a]) == Step(Exec(s0, run), a)
  {
    assert (run + [a])[..|run|] == run;
  }

  /** Thief w loads the array's address. */
  lemma ThiefLoads(s0: State, run: seq<Action>, w: nat, m: nat) returns (run': seq<Action>)
    requires Shape(s0)
    requires var s := Exec(s0, run); s.top < s.bottom && w < |s.thieves| && s.thieves[w].at.TIdle?
    ensures var s, s' := Exec(s0, run), Exec(s0, run');
            && s'.owner == s.owner && s'.top == s.top && s'.bottom == s.bottom && s'.rings == s.rings
            && |s'.thieves| == |s.thieves|
            && s'.thieves[w].at.TReadCell? && s'.thieves[w].a == |s.rings| - 1
    ensures Roomy(s0, run, m) ==> Roomy(s0, run', m)
  {
    var a, r := CallSteal(w), RunThief(w);
    OneMore(s0, run, a);
    OneMore(s0, run + [a], r);
    OneMore(s0, run + [a] + [r], r);
    run' := run + [a] + [r] + [r];
    if Roomy(s0, run, m) {
      RoomyNext(s0, run, a, m);
      RoomyNext(s0, run + [a], r, m);
      RoomyNext(s0, run + [a] + [r], r, m);
    }
  }

  /** A push that finds the array full replaces it. */
  lemma PushGrows(s0: State, run: seq<Action>, m: nat) returns (run': seq<Action>)
    requires Shape(s0)
    requires var s := Exec(s0, run); s.owner.at.OIdle? && s.bottom >= 0 && s.bottom - s.top >= Current(s).cap
    ensures Exec(s0, run').thieves == Exec(s0, run).thieves && |Exec(s0, run').rings| == |Exec(s0, run).rings| + 1
    ensures Roomy(s0, run, m) && Exec(s0, run).bottom - Exec(s0, run).top < m ==> Roomy(s0, run', m)
  {
    OneMore(s0, run, CallPush(0));
    OneMore(s0, run + [CallPush(0)], RunOwner);
    run' := run + [CallPush(0)] + [RunOwner];
    if Roomy(s0, run, m) && Exec(s0, run).bottom - Exec(s0, run).top < m {
      RoomyNext(s0, run, CallPush(0), m);
      RoomyNext(s0, run + [CallPush(0)], RunOwner, m);
    }
  }

  /** A steal that has loaded a full array's address, and then a push. */
  lemma StealThenGrow(s0: State, run: seq<Action>, w: nat, m: nat) returns (run': seq<Action>)
    requires Shape(s0)
    requires var s := Exec(s0, run);
             && s.owner.at.OIdle? && s.bottom >= 0 && s.bottom - s.top >= Current(s).cap
             && w < |s.thieves| && s.thieves[w].at.TIdle?
    ensures StaleRead(Exec(s0, run'))
    ensures Roomy(s0, run, m) && Exec(s0, run).bottom - Exec(s0, run).top < m ==> Roomy(s0, run', m)
  {
    var loaded := ThiefLoads(s0, run, w, m);
    assert Current(Exec(s0, loaded)) == Current(Exec(s0, run));
    run' := PushGrows(s0, loaded, m);
    assert Exec(s0, run').thieves[w].at.TReadCell?;
  }

  /** The guard of the failing branch, in any state: with owner and thief between calls and the array full, a steal
      that has loaded the array and one push make the thief about to read a deleted array. */
  lemma FullIsDangerous(s: State, w: nat) returns (run: seq<Action>)
    requires Inv(s) && s.owner.at.OIdle? && w < |s.thieves| && s.thieves[w].at.TIdle?
    requires s.bottom - s.top >= Current(s).cap
    ensures StaleRead(Exec(s, run))
  {
    run := StealThenGrow(s, [], w, 0);
  }

  /** In any state a push replaces the array exactly when it finds it full. */
  lemma GrowsIff(s: State, payload: int)
    requires Inv(s) && s.owner.at.OIdle?
    ensures var s' := OwnerStep(Step(s, CallPush(payload)));
            if s.bottom - s.top >= Current(s).cap then |s'.rings| == |s.rings| + 1 else s'.rings == s.rings
  {
  }

  /** k pushes into the first array, nothing taken, the owner between calls. */
  predicate Filled(s: State, cap: nat, k: nat) {
    Shape(s) && s.owner.at.OIdle? && s.top == 0 && s.bottom == k && |s.rings| == 1 && s.rings[0].cap == cap
  }

  lemma PushOne(s0: State, run: seq<Action>, cap: nat, k: nat) returns (run': seq<Action>)
    requires Shape(s0) && Filled(Exec(s0, run), cap, k) && k < cap && Roomy(s0, run, cap + 1)
    ensures Filled(Exec(s0, run'), cap, k + 1) && Exec(s0, run').thieves == Exec(s0, run).thieves
    ensures Roomy(s0, run', cap + 1)
  {
    OneMore(s0, run, CallPush(0));
    OneMore(s0, run + [CallPush(0)], RunOwner);
    OneMore(s0, run + [CallPush(0)] + [RunOwner], RunOwner);
    OneMore(s0, run + [CallPush(0)] + [RunOwner] + [RunOwner], RunOwner);
    RoomyNext(s0, run, CallPush(0), cap + 1);
    RoomyNext(s0, run + [CallPush(0)], RunOwner, cap + 1);
    RoomyNext(s0, run + [CallPush(0)] + [RunOwner], RunOwner, cap + 1);
    RoomyNext(s0, run + [CallPush(0)] + [RunOwner] + [RunOwner], RunOwner, cap + 1);
    run' := run + [CallPush(0)] + [RunOwner] + [RunOwner] + [RunOwner];
    PushSteps(Exec(s0, run), cap, k);
  }

  lemma PushSteps(s: State, cap: nat, k: nat)
    requires Filled(s, cap, k) && k < cap
    ensures var s' := OwnerStep(OwnerStep(OwnerStep(Step(s, CallPush(0)))));
            Filled(s', cap, k + 1) && s'.thieves == s.thieves
  {
    var s1 := Step(s, CallPush(0));
    assert s1.owner.at.PushCheck? && s1.owner.b == k && s1.owner.t == 0 && s1.rings == s.rings;
    var s2 := OwnerStep(s1);
    assert s2.owner.at.PushStore? && s2.owner.b == k && s2.rings == s.rings;
    var s3 := OwnerStep(s2);
    assert s3.owner.at.PushPublish? && s3.owner.b == k && |s3.rings| == 1 && s3.rings[0].cap == cap;
  }

  lemma {:induction false} PushMany(s0: State, run: seq<Action>, cap: nat, n: nat) returns (run': seq<Action>)
    requires Shape(s0) && Filled(Exec(s0, run), cap, 0) && n <= cap && Roomy(s0, run, cap + 1)
    ensures Filled(Exec(s0, run'), cap, n) && Exec(s0, run').thieves == Exec(s0, run).thieves
    ensures Roomy(s0, run', cap + 1)
  {
    run' := run;
    if n > 0 {
      run' := PushMany(s0, run, cap, n - 1);
      run' := PushOne(s0, run', cap, n - 1);
    }
  }

  /** A run in which no push finds more than `cap` items, and a thief is about to read a deleted array. */
  lemma StaleAfterGrowth(cap: nat, thiefCount: nat) returns (run: seq<Action>)
    requires cap > 0 && thiefCount > 0
    ensures Roomy(Init(cap, thiefCount), run, cap + 1) && StaleRead(Exec(Init(cap, thiefCount), run))
  {
    var s0 := Init(cap, thiefCount);
    run := PushMany(s0, [], cap, cap);
    run := StealThenGrow(s0, run, 0, cap + 1);
  }

  lemma {:induction false} RoomyWeaker(s0: State, run: seq<Action>, m: nat, m': nat)
    requires Shape(s0) && Roomy(s0, run, m) && m <= m'
    ensures Roomy(s0, run, m')
  {
    if run != [] {
      RoomyWeaker(s0, run[..|run| - 1], m, m');
    }
  }

  /** With thieves about, no run of any length in which every push finds fewer than m items makes a thief read a deleted
      array, exactly when m is at most the initial capacity. */
  lemma NeverStaleIff(cap: nat, thiefCount: nat, m: nat)
    requires cap > 0 && thiefCount > 0
    ensures (forall run :: NeverStale(cap, thiefCount, run, m)) <==> m <= cap
  {
    var s0 := Init(cap, thiefCount);
    if m <= cap {
      forall run
        ensures NeverStale(cap, thiefCount, run, m)
      {
        if Roomy(s0, run, m) {
          NoGrowth(cap, thiefCount, run, m);
        }
      }
    } else {
      var run := StaleAfterGrowth(cap, thiefCount);
      RoomyWeaker(s0, run, cap + 1, m);
      assert !NeverStale(cap, thiefCount, run, m);
    }
  }
}
