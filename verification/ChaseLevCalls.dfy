/** The deque of chase_lev_deque.h as an atomic deque: with which step each call takes effect, when a steal loses its
    compare-exchange, and what undisturbed calls do. */
module ChaseLevCalls {
  import opened Common
  import opened ChaseLev

  /** The items that are neither popped nor stolen, the oldest first. */
  function Live(s: State): seq<Item>
    requires s.top <= |s.items|
  {
    s.items[s.top..]
  }

  /** The step with which a push takes effect. */
  predicate Publishes(s: State, act: Action) { act.RunOwner? && s.owner.at.PushPublish? }

  /** The step with which a pop takes effect: outright above `top`, or by winning the race for the last item. */
  predicate TakesLast(s: State, act: Action) {
    act.RunOwner? && ((s.owner.at.PopRead? && s.top < s.owner.b) || (s.owner.at.PopCas? && s.top == s.owner.t))
  }

  /** The step with which a steal takes effect. */
  predicate TakesFirst(s: State, act: Action) {
    act.RunThief? && act.thief < |s.thieves| && s.thieves[act.thief].at.TCas? && s.top == s.thieves[act.thief].t
  }

  lemma StaysValid(s: State, act: Action)
    requires Inv(s)
    ensures Step(s, act).top <= |Step(s, act).items|
  {
    StepKept(s, act);
  }

  lemma OwnerActs(s: State)
    requires Inv(s)
    ensures var s', live := OwnerStep(s), Live(s);
            && s'.top <= |s'.items| && s'.stolen == s.stolen
            && if Publishes(s, RunOwner) then
                 Live(s') == live + [s.owner.item] && s'.pushed == s.pushed + [s.owner.item] && s'.popped == s.popped
               else if TakesLast(s, RunOwner) then
                 && live != [] && Live(s') == live[..|live| - 1]
                 && s'.popped == s.popped + [live[|live| - 1]] && s'.pushed == s.pushed
               else Live(s') == live && s'.pushed == s.pushed && s'.popped == s.popped
  {
    StaysValid(s, RunOwner);
  }

  lemma ThiefActs(s: State, w: nat)
    requires Inv(s) && w < |s.thieves|
    ensures var s', live := ThiefStep(s, w), Live(s);
            && s'.top <= |s'.items| && s'.pushed == s.pushed && s'.popped == s.popped
            && if TakesFirst(s, RunThief(w)) then
                 live != [] && Live(s') == live[1..] && s'.stolen == s.stolen + [live[0]] && s'.top == s.top + 1
               else Live(s') == live && s'.stolen == s.stolen && s'.top == s.top
  {
    assert ThiefOk(s, w);
  }

  /** In every run each step leaves the live items and the results alone, or appends the item of a push, or removes the
      last live item, which the pop returns, or removes the first, which the steal returns. */
  lemma ActsAsDeque(s: State, act: Action)
    requires Reachable(s)
    ensures s.top <= |s.items| && Step(s, act).top <= |Step(s, act).items|
    ensures var s', live := Step(s, act), Live(s);
            if Publishes(s, act) then
              && Live(s') == live + [s.owner.item] && s'.pushed == s.pushed + [s.owner.item]
              && s'.popped == s.popped && s'.stolen == s.stolen
            else if TakesLast(s, act) then
              && live != [] && Live(s') == live[..|live| - 1] && s'.popped == s.popped + [live[|live| - 1]]
              && s'.pushed == s.pushed && s'.stolen == s.stolen
            else if TakesFirst(s, act) then
              && live != [] && Live(s') == live[1..] && s'.stolen == s.stolen + [live[0]]
              && s'.pushed == s.pushed && s'.popped == s.popped
            else Live(s') == live && s'.pushed == s.pushed && s'.popped == s.popped && s'.stolen == s.stolen
  {
    ReachableInv(s);
    StaysValid(s, act);
    if act.RunOwner? {
      OwnerActs(s);
    } else if act.RunThief? && act.thief < |s.thieves| {
      ThiefActs(s, act.thief);
    }
  }

  /** A steal that has come to its compare-exchange loses only if somebody else has taken that index since it looked;
      otherwise it gets the oldest live item. */
  lemma StealOutcome(s: State, w: nat)
    requires Reachable(s) && w < |s.thieves| && s.thieves[w].at.TCas?
    ensures s.top <= |s.items|
    ensures var s' := Step(s, RunThief(w));
            if s'.stolen == s.stolen then s.top > s.thieves[w].t
            else s.top < |s.items| && s'.stolen == s.stolen + [s.items[s.top]] && s'.top == s.top + 1
  {
    ReachableInv(s);
    assert ThiefOk(s, w);
    ThiefActs(s, w);
  }

  // ---- Calls that run alone --------------------------------------------------------------------------------

  /** A call of the owner with all its steps in a row. */
  function OwnerCall(s: State, call: Action): State
    requires Shape(s)
  {
    OwnerStep(OwnerStep(OwnerStep(Step(s, call))))
  }

  /** The same for a thief. */
  function StealCall(s: State, w: nat): State
    requires Shape(s)
  {
    var r := RunThief(w);
    Step(Step(Step(Step(Step(s, CallSteal(w)), r), r), r), r)
  }

  /** An undisturbed push appends its item. */
  lemma PushAlone(s: State, payload: int)
    requires Reachable(s) && s.owner.at.OIdle?
    ensures Shape(s) && s.top <= |s.items|
    ensures var s', x := OwnerCall(s, CallPush(payload)), Item(|s.pushed|, payload);
            && s'.owner.at.OIdle? && s'.thieves == s.thieves && s'.top == s.top <= |s'.items|
            && Live(s') == Live(s) + [x] && s'.pushed == s.pushed + [x]
            && s'.popped == s.popped && s'.stolen == s.stolen
  {
    ReachableInv(s);
    var s1 := Step(s, CallPush(payload));
    StepKept(s, CallPush(payload));
    var s2 := OwnerStep(s1);
    var s3 := OwnerStep(s2);
    assert s2.owner == s1.owner.(at := PushStore) && s2.items == s.items;
    assert s3.owner == s1.owner.(at := PushPublish) && s3.items == s.items;
  }

  /** An undisturbed pop removes and returns the newest item, or finds the deque empty. */
  lemma PopAlone(s: State)
    requires Reachable(s) && s.owner.at.OIdle?
    ensures Shape(s) && s.top <= |s.items|
    ensures var s', live := OwnerCall(s, CallPop), Live(s);
            && s'.owner.at.OIdle? && s'.thieves == s.thieves && s'.top <= |s'.items|
            && s'.pushed == s.pushed && s'.stolen == s.stolen
            && if live == [] then Live(s') == [] && s'.popped == s.popped
               else Live(s') == live[..|live| - 1] && s'.popped == s.popped + [live[|live| - 1]]
  {
    ReachableInv(s);
    StepKept(s, CallPop);
    PopSteps(Step(s, CallPop));
  }

  /** The steps of such a pop after its first store. */
  lemma PopSteps(s: State)
    requires Inv(s) && s.owner.at.PopRead?
    ensures var s', live := OwnerStep(OwnerStep(OwnerStep(s))), Live(s);
            && s'.owner.at.OIdle? && s'.thieves == s.thieves && s'.top <= |s'.items|
            && s'.pushed == s.pushed && s'.stolen == s.stolen
            && if live == [] then Live(s') == [] && s'.popped == s.popped
               else Live(s') == live[..|live| - 1] && s'.popped == s.popped + [live[|live| - 1]]
  {
    if s.top < s.owner.b {
      OwnerActs(s);
    } else if s.top == s.owner.b {
      StepKept(s, RunOwner);
      OwnerActs(OwnerStep(s));
    }
  }

  /** What a thief knows after the loads of a steal. */
  function Read(s: State): Thief
    requires Shape(s)
  {
    Thief(TCas, s.top, |s.rings| - 1, Load(Current(s), s.top))
  }

  /** The loads of a steal from a deque that is not empty. */
  lemma StealReads(s: State, w: nat)
    requires Shape(s) && w < |s.thieves| && s.thieves[w].at.TIdle? && s.top < s.bottom
    ensures StealCall(s, w) == ThiefStep(s.(thieves := s.thieves[w := Read(s)]), w)
  {
    var t, out, a, r := s.top, s.thieves[w].out, s.thieves[w].a, RunThief(w);
    var s2 := s.(thieves := s.thieves[w := Thief(TReadArray, t, a, out)]);
    var s3 := s.(thieves := s.thieves[w := Thief(TReadCell, t, |s.rings| - 1, out)]);
    assert Step(Step(s, CallSteal(w)), r) == s2;
    assert Step(s2, r) == s3;
    assert Step(s3, r) == s.(thieves := s.thieves[w := Read(s)]);
  }

  lemma ReadIsOk(s: State, w: nat)
    requires Inv(s) && w < |s.thieves| && s.top < |s.items|
    ensures Inv(s.(thieves := s.thieves[w := Read(s)]))
  {
    ThiefOnlyKept(s, w, Read(s));
  }

  /** An undisturbed steal removes and returns the oldest item, or finds the deque empty. */
  lemma StealAlone(s: State, w: nat)
    requires Reachable(s) && s.owner.at.OIdle? && w < |s.thieves| && s.thieves[w].at.TIdle?
    ensures Shape(s) && s.top <= |s.items|
    ensures var s', live := StealCall(s, w), Live(s);
            && s'.owner == s.owner && s'.bottom == s.bottom && s'.pushed == s.pushed && s'.popped == s.popped
            && |s'.thieves| == |s.thieves| && s'.thieves[w].at.TIdle? && s'.top <= |s'.items|
            && if live == [] then Live(s') == [] && s'.stolen == s.stolen
               else Live(s') == live[1..] && s'.stolen == s.stolen + [live[0]]
  {
    ReachableInv(s);
    if s.top < s.bottom {
      StealReads(s, w);
      ReadIsOk(s, w);
      ThiefActs(s.(thieves := s.thieves[w := Read(s)]), w);
    } else {
      EmptySteal(s, w);
    }
  }

  lemma EmptySteal(s: State, w: nat)
    requires Shape(s) && w < |s.thieves| && s.thieves[w].at.TIdle? && s.top >= s.bottom
    ensures StealCall(s, w) == s.(thieves := s.thieves[w := s.thieves[w].(t := s.top)])
  {
    var s2 := s.(thieves := s.thieves[w := s.thieves[w].(t := s.top)]);
    assert Step(Step(s, CallSteal(w)), RunThief(w)) == s2;
    assert Step(s2, RunThief(w)) == s2;
  }
}
