/** The work-stealing deque of chase_lev_deque.h: one owner pushing and popping at the bottom, any number of
    thieves stealing at the top.  One shared load, store or compare-exchange per step; a run is any sequence
    of actions.  Items are copied out of the array and an array replaced by a larger one stays readable. */
module ChaseLev {
  import opened Common
  import opened Words

  /** `id` numbers the pushes, so that equal payloads stay distinguishable. */
  datatype Item = Item(id: nat, payload: int)

  datatype Ring = Ring(cap: nat, cells: seq<Item>)

  predicate ValidRing(r: Ring) { r.cap > 0 && |r.cells| == r.cap }

  function Load(r: Ring, i: nat): Item
    requires ValidRing(r)
  {
    r.cells[i % r.cap]
  }

  function Store(r: Ring, i: nat, x: Item): (r': Ring)
    requires ValidRing(r)
    ensures ValidRing(r') && r'.cap == r.cap
  {
    r.(cells := r.cells[i % r.cap := x])
  }

  /** The copy loop of CircularArray::grow for the indices [t, b). */
  function CopyRange(from: Ring, into: Ring, t: nat, b: nat): (r: Ring)
    requires ValidRing(from) && ValidRing(into)
    ensures ValidRing(r) && r.cap == into.cap
    decreases b
  {
    if b <= t then into else Store(CopyRange(from, into, t, b - 1), b - 1, Load(from, b - 1))
  }

  function Grow(r: Ring, t: nat, b: nat): (r': Ring)
    requires ValidRing(r)
    ensures ValidRing(r') && r'.cap == 2 * r.cap
  {
    CopyRange(r, Ring(2 * r.cap, seq(2 * r.cap, _ => Item(0, 0))), t, b)
  }

  /** CircularArray::grow on mutable arrays. */
  method GrowArray(src: array<Item>, t: nat, b: nat) returns (bigger: array<Item>)
    requires src.Length > 0
    ensures bigger.Length == 2 * src.Length
    ensures Ring(bigger.Length, bigger[..]) == Grow(Ring(src.Length, src[..]), t, b)
  {
    bigger := new Item[2 * src.Length](_ => Item(0, 0));
    ghost var blank := Ring(2 * src.Length, seq(2 * src.Length, _ => Item(0, 0)));
    assert bigger[..] == blank.cells;
    var i := t;
    while i < b
      invariant t <= i && (i <= b || i == t)
      invariant Ring(bigger.Length, bigger[..]) == CopyRange(Ring(src.Length, src[..]), blank, t, i)
      decreases b - i
    {
      bigger[i % bigger.Length] := src[i % src.Length];
      i := i + 1;
    }
  }

  datatype OwnerAt = OIdle | PushCheck | PushStore | PushPublish | PopRead | PopCas | PopRestore

  datatype Owner = Owner(at: OwnerAt, b: int, t: nat, item: Item)

  datatype ThiefAt = TIdle | TReadBottom | TReadArray | TReadCell | TCas

  datatype Thief = Thief(at: ThiefAt, t: nat, a: nat, out: Item)

  /** `rings` lists every array ever published, the current one last.  History: `items[k]` is the item last
      placed at index k and not popped from it; `pushed`, `popped`, `stolen` log the operations. */
  datatype State = State(
    top: nat, bottom: int, rings: seq<Ring>, owner: Owner, thieves: seq<Thief>,
    items: seq<Item>, pushed: seq<Item>, popped: seq<Item>, stolen: seq<Item>)

  datatype Action = CallPush(payload: int) | CallPop | RunOwner | CallSteal(thief: nat) | RunThief(thief: nat)

  predicate Shape(s: State) {
    && |s.rings| > 0
    && (forall a :: 0 <= a < |s.rings| ==> ValidRing(s.rings[a]))
  }

  function Current(s: State): (r: Ring)
    requires Shape(s)
    ensures ValidRing(r)
  {
    s.rings[|s.rings| - 1]
  }

  function OwnerStep(s: State): (s': State)
    requires Shape(s)
    ensures Shape(s')
  {
    var Owner(at, b, t, item) := s.owner;
    var cur := Current(s);
    match at
    case OIdle => s
    case PushCheck =>
      if b >= 0 && b - t >= cur.cap then
        s.(rings := s.rings + [Grow(cur, t, b)], owner := s.owner.(at := PushStore))
      else s.(owner := s.owner.(at := PushStore))
    case PushStore =>
      if b < 0 then s
      else s.(rings := s.rings[|s.rings| - 1 := Store(cur, b, item)], owner := s.owner.(at := PushPublish))
    case PushPublish =>
      s.(bottom := b + 1, owner := s.owner.(at := OIdle), items := s.items + [item], pushed := s.pushed + [item])
    case PopRead =>
      if s.top < b then
        s.(owner := s.owner.(at := OIdle), popped := s.popped + [Load(cur, b)],
           items := if b <= |s.items| then s.items[..b] else s.items)
      else if s.top == b then s.(owner := Owner(PopCas, b, s.top, Load(cur, b)))
      else s.(owner := s.owner.(at := PopRestore))
    case PopCas =>
      if s.top == t then s.(top := t + 1, owner := s.owner.(at := PopRestore), popped := s.popped + [item])
      else s.(owner := s.owner.(at := PopRestore))
    case PopRestore => s.(bottom := b + 1, owner := s.owner.(at := OIdle))
  }

  function ThiefStep(s: State, w: nat): (s': State)
    requires Shape(s) && w < |s.thieves|
    ensures Shape(s')
  {
    var Thief(at, t, a, out) := s.thieves[w];
    match at
    case TIdle => s
    case TReadBottom =>
      s.(thieves := s.thieves[w := Thief(if t >= s.bottom then TIdle else TReadArray, t, a, out)])
    case TReadArray => s.(thieves := s.thieves[w := Thief(TReadCell, t, |s.rings| - 1, out)])
    case TReadCell =>
      if a < |s.rings| then s.(thieves := s.thieves[w := Thief(TCas, t, a, Load(s.rings[a], t))]) else s
    case TCas =>
      var s1 := s.(thieves := s.thieves[w := Thief(TIdle, t, a, out)]);
      if s.top == t then s1.(top := t + 1, stolen := s.stolen + [out]) else s1
  }

  function Step(s: State, act: Action): (s': State)
    requires Shape(s)
    ensures Shape(s')
  {
    match act
    case CallPush(payload) =>
      if s.owner.at.OIdle? then s.(owner := Owner(PushCheck, s.bottom, s.top, Item(|s.pushed|, payload))) else s
    case CallPop =>
      if s.owner.at.OIdle? then s.(bottom := s.bottom - 1, owner := s.owner.(at := PopRead, b := s.bottom - 1))
      else s
    case RunOwner => OwnerStep(s)
    case CallSteal(w) =>
      if w < |s.thieves| && s.thieves[w].at.TIdle? then
        s.(thieves := s.thieves[w := s.thieves[w].(at := TReadBottom, t := s.top)])
      else s
    case RunThief(w) => if w < |s.thieves| then ThiefStep(s, w) else s
  }

  function Init(cap: nat, thiefCount: nat): (s: State)
    requires cap > 0
    ensures Shape(s)
  {
    State(0, 0, [Ring(cap, seq(cap, _ => Item(0, 0)))], Owner(OIdle, 0, 0, Item(0, 0)),
          seq(thiefCount, _ => Thief(TIdle, 0, 0, Item(0, 0))), [], [], [], [])
  }

  function Exec(s: State, run: seq<Action>): (s': State)
    requires Shape(s)
    ensures Shape(s')
  {
    if run == [] then s else Step(Exec(s, run[..|run| - 1]), run[|run| - 1])
  }

  // ---- What every run keeps -------------------------------------------------------------------------

  /** The current array holds every live item, and has room for them. */
  predicate Stored(s: State)
    requires Shape(s)
  {
    && s.top <= |s.items| <= s.top + Current(s).cap
    && forall k :: s.top <= k < |s.items| ==> Load(Current(s), k) == s.items[k]
  }

  predicate OwnerOk(s: State)
    requires Shape(s) && s.top <= |s.items|
  {
    var Owner(at, b, t, item) := s.owner;
    var hi, cap := |s.items|, Current(s).cap;
    match at
    case OIdle => s.bottom == hi
    case PushCheck => s.bottom == hi == b && t <= s.top && b - t <= cap && item.id == |s.pushed|
    case PushStore => s.bottom == hi == b && b - s.top < cap && item.id == |s.pushed|
    case PushPublish =>
      s.bottom == hi == b && b - s.top < cap && item.id == |s.pushed| && Load(Current(s), b) == item
    case PopRead => s.bottom == b == hi - 1
    case PopCas => s.bottom == b == hi - 1 == t && t <= s.top && item == s.items[b]
    case PopRestore => s.bottom == b == hi - 1 && s.top == hi
  }

  /** What a thief has read is right as long as `top` has not moved past the index it aims at. */
  predicate ThiefOk(s: State, w: nat)
    requires Shape(s) && w < |s.thieves|
  {
    var Thief(at, t, a, out) := s.thieves[w];
    at.TIdle? || (
      && t <= s.top
      && (!at.TReadBottom? && t == s.top ==> t < |s.items|)
      && (at.TReadCell? ==> a < |s.rings| && (t == s.top ==> Load(s.rings[a], t) == s.items[t]))
      && (at.TCas? && t == s.top ==> out == s.items[t]))
  }

  /** Every pushed item is in exactly one place (popped, stolen or live), and pushes number the items so that
      the stolen ones come first in push order, then the live ones. */
  predicate History(live: seq<Item>, pushed: seq<Item>, popped: seq<Item>, stolen: seq<Item>) {
    && multiset(popped) + multiset(stolen) + multiset(live) == multiset(pushed)
    && (forall i :: 0 <= i < |pushed| ==> pushed[i].id == i)
    && Increasing(stolen + live, |pushed|)
  }

  predicate Increasing(q: seq<Item>, bound: nat) {
    && (forall i, j :: 0 <= i < j < |q| ==> q[i].id < q[j].id)
    && (forall i :: 0 <= i < |q| ==> q[i].id < bound)
  }

  predicate Core(s: State) {
    && Shape(s) && Stored(s) && OwnerOk(s)
    && forall w :: 0 <= w < |s.thieves| ==> ThiefOk(s, w)
  }

  predicate Recorded(s: State)
    requires s.top <= |s.items|
  {
    History(s.items[s.top..], s.pushed, s.popped, s.stolen)
  }

  predicate Inv(s: State) { Core(s) && Recorded(s) }

  lemma HistoryPush(live: seq<Item>, pushed: seq<Item>, popped: seq<Item>, stolen: seq<Item>, x: Item)
    requires History(live, pushed, popped, stolen) && x.id == |pushed|
    ensures History(live + [x], pushed + [x], popped, stolen)
  {
    assert stolen + (live + [x]) == (stolen + live) + [x];
  }

  lemma HistoryPop(live: seq<Item>, pushed: seq<Item>, popped: seq<Item>, stolen: seq<Item>, x: Item)
    requires History(live + [x], pushed, popped, stolen)
    ensures History(live, pushed, popped + [x], stolen)
  {
    assert stolen + (live + [x]) == (stolen + live) + [x];
    IncreasingPrefix(stolen + live, [x], |pushed|);
  }

  lemma IncreasingPrefix(q: seq<Item>, r: seq<Item>, bound: nat)
    requires Increasing(q + r, bound)
    ensures Increasing(q, bound)
  {
    forall i | 0 <= i < |q|
      ensures (q + r)[i] == q[i]
    {
    }
  }

  lemma HistorySteal(live: seq<Item>, pushed: seq<Item>, popped: seq<Item>, stolen: seq<Item>, x: Item)
    requires History([x] + live, pushed, popped, stolen)
    ensures History(live, pushed, popped, stolen + [x])
  {
    assert stolen + ([x] + live) == (stolen + [x]) + live;
  }

  lemma {:induction false} CopyRangeLoads(from: Ring, into: Ring, t: nat, b: nat, k: nat)
    requires ValidRing(from) && ValidRing(into) && t <= k < b <= t + into.cap
    ensures Load(CopyRange(from, into, t, b), k) == Load(from, k)
    decreases b
  {
    if k < b - 1 {
      CopyRangeLoads(from, into, t, b - 1, k);
      SlotUnique(k, b - 1, into.cap, t);
    }
  }

  lemma StoreElsewhere(r: Ring, i: nat, x: Item, k: nat)
    requires ValidRing(r) && k < i < k + r.cap
    ensures Load(Store(r, i, x), k) == Load(r, k)
  {
    SlotUnique(k, i, r.cap, k);
  }

  lemma PushCheckKept(s: State)
    requires Core(s) && s.owner.at.PushCheck?
    ensures Core(OwnerStep(s))
  {
    var s' := OwnerStep(s);
    var Owner(at, b, t, item) := s.owner;
    var cur := Current(s);
    if b - t >= cur.cap {
      forall k | s.top <= k < |s.items|
        ensures Load(Current(s'), k) == s.items[k]
      {
        CopyRangeLoads(cur, Ring(2 * cur.cap, seq(2 * cur.cap, _ => Item(0, 0))), t, b, k);
      }
    }
    ThievesKept(s, s');
  }

  lemma PushStoreKept(s: State)
    requires Core(s) && s.owner.at.PushStore?
    ensures Core(OwnerStep(s))
  {
    var s' := OwnerStep(s);
    forall k | s.top <= k < |s.items|
      ensures Load(Current(s'), k) == s.items[k]
    {
      StoreElsewhere(Current(s), s.owner.b, s.owner.item, k);
    }
    forall w | 0 <= w < |s.thieves|
      ensures ThiefOk(s', w)
    {
      assert ThiefOk(s, w);
      if s.thieves[w].at.TReadCell? && s.thieves[w].t == s.top {
        StoreElsewhere(Current(s), s.owner.b, s.owner.item, s.top);
      }
    }
  }

  /** Thieves survive every owner step that leaves the arrays they hold and the item they aim at. */
  lemma ThievesKept(s: State, s': State)
    requires Core(s) && Shape(s') && s'.thieves == s.thieves
    requires |s.rings| <= |s'.rings| && (forall a :: 0 <= a < |s.rings| ==> s'.rings[a] == s.rings[a])
    requires s.top <= s'.top
    requires s'.top == s.top && s.top < |s.items| ==> s.top < |s'.items| && s'.items[s.top] == s.items[s.top]
    ensures forall w :: 0 <= w < |s.thieves| ==> ThiefOk(s', w)
  {
    forall w | 0 <= w < |s.thieves|
      ensures ThiefOk(s', w)
    {
      assert ThiefOk(s, w);
      var th := s.thieves[w];
      if th.at.TReadCell? {
        assert s'.rings[th.a] == s.rings[th.a];
      }
    }
  }

  /** The owner's other steps: publishing a push, deciding and finishing a pop. */
  lemma OwnerMoveKept(s: State)
    requires Core(s) && !s.owner.at.PushCheck? && !s.owner.at.PushStore?
    ensures Core(OwnerStep(s))
  {
    ThievesKept(s, OwnerStep(s));
  }

  lemma ThiefMoveKept(s: State, w: nat)
    requires Core(s) && w < |s.thieves|
    ensures Core(ThiefStep(s, w))
  {
    if s.thieves[w].at.TCas? && s.top == s.thieves[w].t {
      StealKept(s, w);
    } else {
      ThiefReadKept(s, w);
    }
  }

  lemma ThiefReadKept(s: State, w: nat)
    requires Core(s) && w < |s.thieves| && !(s.thieves[w].at.TCas? && s.top == s.thieves[w].t)
    ensures Core(ThiefStep(s, w))
  {
    assert ThiefOk(s, w);
    ThiefOnlyKept(s, w, ThiefStep(s, w).thieves[w]);
  }

  /** A step that changes nothing but what one thief remembers. */
  lemma ThiefOnlyKept(s: State, w: nat, th: Thief)
    requires Core(s) && w < |s.thieves| && ThiefOk(s.(thieves := s.thieves[w := th]), w)
    ensures Core(s.(thieves := s.thieves[w := th]))
  {
    var s' := s.(thieves := s.thieves[w := th]);
    forall v | 0 <= v < |s'.thieves|
      ensures ThiefOk(s', v)
    {
      assert ThiefOk(s, v);
    }
  }

  lemma StealKept(s: State, w: nat)
    requires Core(s) && w < |s.thieves| && s.thieves[w].at.TCas? && s.top == s.thieves[w].t
    ensures Core(ThiefStep(s, w))
  {
    var s' := ThiefStep(s, w);
    assert ThiefOk(s, w);
    forall v | 0 <= v < |s'.thieves|
      ensures ThiefOk(s', v)
    {
      assert ThiefOk(s, v);
    }
  }

  lemma CallKept(s: State, act: Action)
    requires Core(s) && !act.RunOwner? && !act.RunThief?
    ensures Core(Step(s, act))
  {
    var s' := Step(s, act);
    forall v | 0 <= v < |s'.thieves|
      ensures ThiefOk(s', v)
    {
      assert ThiefOk(s, v);
    }
  }

  lemma PublishRecorded(s: State)
    requires Inv(s) && s.owner.at.PushPublish?
    ensures OwnerStep(s).top <= |OwnerStep(s).items| && Recorded(OwnerStep(s))
  {
    var live := s.items[s.top..];
    assert (s.items + [s.owner.item])[s.top..] == live + [s.owner.item];
    HistoryPush(live, s.pushed, s.popped, s.stolen, s.owner.item);
  }

  /** A pop takes the last live item: outright above `top`, or by the compare-exchange at `top`. */
  lemma PopRecorded(s: State)
    requires Inv(s)
    requires (s.owner.at.PopRead? && s.top < s.owner.b) || (s.owner.at.PopCas? && s.top == s.owner.t)
    ensures OwnerStep(s).top <= |OwnerStep(s).items| && Recorded(OwnerStep(s))
  {
    var s', b := OwnerStep(s), s.owner.b;
    var live' := s'.items[s'.top..];
    assert s.items[s.top..] == live' + [s.items[b]];
    HistoryPop(live', s.pushed, s.popped, s.stolen, s.items[b]);
  }

  lemma OwnerRecorded(s: State)
    requires Inv(s)
    ensures OwnerStep(s).top <= |OwnerStep(s).items| && Recorded(OwnerStep(s))
  {
    if s.owner.at.PushPublish? {
      PublishRecorded(s);
    } else if (s.owner.at.PopRead? && s.top < s.owner.b) || (s.owner.at.PopCas? && s.top == s.owner.t) {
      PopRecorded(s);
    }
  }

  lemma ThiefRecorded(s: State, w: nat)
    requires Inv(s) && w < |s.thieves|
    ensures ThiefStep(s, w).top <= |ThiefStep(s, w).items| && Recorded(ThiefStep(s, w))
  {
    var s' := ThiefStep(s, w);
    assert ThiefOk(s, w);
    if s.thieves[w].at.TCas? && s.thieves[w].t == s.top {
      var x := s.thieves[w].out;
      assert s.items[s.top..] == [x] + s'.items[s'.top..];
      HistorySteal(s'.items[s'.top..], s.pushed, s.popped, s.stolen, x);
    }
  }

  lemma StepKept(s: State, act: Action)
    requires Inv(s)
    ensures Inv(Step(s, act))
  {
    if act.RunOwner? {
      OwnerRecorded(s);
      if s.owner.at.PushCheck? {
        PushCheckKept(s);
      } else if s.owner.at.PushStore? {
        PushStoreKept(s);
      } else {
        OwnerMoveKept(s);
      }
    } else if act.RunThief? {
      if act.thief < |s.thieves| {
        ThiefRecorded(s, act.thief);
        ThiefMoveKept(s, act.thief);
      }
    } else {
      CallKept(s, act);
    }
  }

  lemma {:induction false} RunKept(s: State, run: seq<Action>)
    requires Inv(s)
    ensures Inv(Exec(s, run))
  {
    if run != [] {
      RunKept(s, run[..|run| - 1]);
      StepKept(Exec(s, run[..|run| - 1]), run[|run| - 1]);
    }
  }

  /** A state that some run of one owner and `thiefCount` thieves reaches from an empty deque. */
  ghost predicate Reachable(s: State) {
    exists cap: nat, thiefCount: nat, run: seq<Action> :: Reaches(cap, thiefCount, run, s)
  }

  ghost predicate Reaches(cap: nat, thiefCount: nat, run: seq<Action>, s: State) {
    cap > 0 && s == Exec(Init(cap, thiefCount), run)
  }

  lemma ReachableInv(s: State)
    requires Reachable(s)
    ensures Inv(s)
  {
    var cap: nat, thiefCount: nat, run: seq<Action> :| Reaches(cap, thiefCount, run, s);
    RunKept(Init(cap, thiefCount), run);
  }

  // ---- Main results ---------------------------------------------------------------------------------

  /** Each push is returned by at most one successful pop or steal, and by none while it is still live: the
      i-th push occurs exactly once among the popped, the stolen and the live items. */
  lemma ReturnedAtMostOnce(s: State, i: nat)
    requires Reachable(s) && i < |s.pushed|
    ensures s.top <= |s.items|
    ensures multiset(s.popped)[s.pushed[i]] + multiset(s.stolen)[s.pushed[i]]
            + multiset(s.items[s.top..])[s.pushed[i]] == 1
    ensures forall x :: x in s.popped || x in s.stolen ==> x in s.pushed
  {
    ReachableInv(s);
    DistinctIds(s.pushed, (x: Item) => x.id, i);
    forall x | x in s.popped || x in s.stolen
      ensures x in s.pushed
    {
      assert x in multiset(s.popped) + multiset(s.stolen) + multiset(s.items[s.top..]);
    }
  }

  /** Successful steals return items in the order in which they were pushed. */
  lemma StealsInPushOrder(s: State, i: nat, j: nat)
    requires Reachable(s) && i < j < |s.stolen|
    ensures s.stolen[i].id < s.stolen[j].id < |s.pushed|
    ensures s.pushed[s.stolen[i].id] == s.stolen[i] && s.pushed[s.stolen[j].id] == s.stolen[j]
  {
    ReachableInv(s);
    IncreasingPrefix(s.stolen, s.items[s.top..], |s.pushed|);
    ReturnedAtMostOnce(s, s.stolen[i].id);
    assert s.stolen[i] in s.pushed && s.stolen[j] in s.pushed;
  }

  /** When the deque reads as empty with the owner between calls, every push has been returned exactly once. */
  lemma EmptyMeansAllReturned(s: State)
    requires Reachable(s) && s.owner.at.OIdle? && s.bottom <= s.top
    ensures multiset(s.popped) + multiset(s.stolen) == multiset(s.pushed)
  {
    ReachableInv(s);
    assert s.items[s.top..] == [];
  }

  /** pop() gives up only when nothing is left, and a thief that reports empty misses at most the one item the
      owner is popping at that instant. */
  lemma FailuresAreHonest(s: State, w: nat)
    requires Reachable(s)
    ensures s.top <= |s.items|
    ensures s.owner.at.PopRestore? ==> s.items[s.top..] == []
    ensures w < |s.thieves| && s.thieves[w].at.TReadBottom? && ThiefStep(s, w).thieves[w].at.TIdle? ==>
              s.items[s.top..] == [] || (|s.items[s.top..]| == 1 && (s.owner.at.PopRead? || s.owner.at.PopCas?))
  {
    ReachableInv(s);
    if w < |s.thieves| {
      assert ThiefOk(s, w);
    }
  }
}
