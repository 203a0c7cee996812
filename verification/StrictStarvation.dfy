/** strict_priority_policy.cc: which queues are sure to be served soon when their level is.  A visit to a more urgent
    level makes the policy forget how far it had got, so that it starts again behind queue 0. */
module StrictStarvation {
  import opened Policies

  /** The policy before its first decision. */
  const START: Memory := Memory(Nothing, 0)

  /** A snapshot of queues with the given priorities. */
  predicate Fits(prios: seq<Priority>, snap: seq<QueueSnapshot>) {
    |snap| == |prios| && forall i :: 0 <= i < |snap| ==> snap[i].priority == prios[i]
  }

  /** Queue q has work at every decision. */
  predicate Steady(prios: seq<Priority>, q: nat, snaps: seq<seq<QueueSnapshot>>) {
    q < |prios| && forall k :: 0 <= k < |snaps| ==> Fits(prios, snaps[k]) && snaps[k][q].count > 0
  }

  predicate Serves(d: Decision, q: nat) { !d.idle && d.queue == q }

  predicate Picked(ds: seq<Decision>, q: nat) { exists k :: 0 <= k < |ds| && Serves(ds[k], q) }

  predicate AtLevel(prios: seq<Priority>, d: Decision, p: Priority) {
    !d.idle && d.queue < |prios| && prios[d.queue] == p
  }

  /** How many of the decisions serve level p. */
  function LevelCount(prios: seq<Priority>, ds: seq<Decision>, p: Priority): nat {
    if ds == [] then 0 else (if AtLevel(prios, ds[0], p) then 1 else 0) + LevelCount(prios, ds[1..], p)
  }

  /** If q has work throughout and its level is served n times, q is served. */
  predicate Prompt(prios: seq<Priority>, q: nat, m: Memory, maxBatch: nat, snaps: seq<seq<QueueSnapshot>>) {
    Steady(prios, q, snaps) && LevelCount(prios, StrictRun(m, maxBatch, snaps), prios[q]) >= |prios| ==>
      Picked(StrictRun(m, maxBatch, snaps), q)
  }

  predicate NothingAbove(prios: seq<Priority>, q: nat)
    requires q < |prios|
  {
    forall i :: 0 <= i < |prios| ==> Rank(prios[q]) <= Rank(prios[i])
  }

  /** q is the first queue of its level in the order 1, 2, ..., n - 1, 0. */
  predicate FirstOfLevel(prios: seq<Priority>, q: nat)
    requires q < |prios|
  {
    forall j :: 0 <= j < |prios| && prios[j] == prios[q] ==> Distance(0, q, |prios|) <= Distance(0, j, |prios|)
  }

  predicate Safe(prios: seq<Priority>, q: nat)
    requires q < |prios|
  {
    NothingAbove(prios, q) || FirstOfLevel(prios, q)
  }

  // ---- One decision ----------------------------------------------------------------------------------------

  /** A decision at a level, from place `base`, takes the first ready queue behind that place. */
  lemma ScanTakesFirst(snap: seq<QueueSnapshot>, p: Priority, base: nat, q: nat)
    requires q < |snap| && Ready(snap[q], Only(p))
    ensures var r := Scan(snap, Only(p), base, 1);
            && r <= |snap| && Ready(snap[After(base, r, |snap|)], Only(p))
            && Distance(base, After(base, r, |snap|), |snap|) == r <= Distance(base, q, |snap|)
            && (r == Distance(base, q, |snap|) ==> After(base, r, |snap|) == q)
  {
    ScanComesCloser(snap, Only(p), base, q);
    DistanceReaches(base, q, |snap|);
    var i := After(base, Scan(snap, Only(p), base, 1), |snap|);
    ScanComesCloser(snap, Only(p), base, i);
  }

  /** What a decision looks like while q has work. */
  lemma {:induction false} Decided(prios: seq<Priority>, q: nat, m: Memory, maxBatch: nat, snap: seq<QueueSnapshot>)
    requires Fits(prios, snap) && q < |prios| && snap[q].count > 0
    ensures var (d, m') := Strict(m, maxBatch, snap);
            && !d.idle && d.queue < |prios| && snap[d.queue].count > 0
            && m' == Memory(At(prios[d.queue]), d.queue)
            && BestFrom(snap, 0) <= 3 && prios[d.queue] == Level(BestFrom(snap, 0))
            && Rank(prios[d.queue]) <= Rank(prios[q])
  {
    StrictServesBest(m, maxBatch, snap);
    var best := BestFrom(snap, 0);
    assert best <= 3;
    ScanFinds(snap, Only(Level(best)), Base(m, Level(best)));
  }

  /** A decision at q's own level serves q or brings it closer; from place 0 it serves q if q is the first there. */
  lemma {:induction false} Closer(prios: seq<Priority>, q: nat, m: Memory, maxBatch: nat, snap: seq<QueueSnapshot>)
    requires Fits(prios, snap) && q < |prios| && snap[q].count > 0
    requires AtLevel(prios, Strict(m, maxBatch, snap).0, prios[q])
    ensures var d, n, base := Strict(m, maxBatch, snap).0, |prios|, Base(m, prios[q]);
            && (d.queue != q ==> Distance(d.queue, q, n) < Distance(base, q, n))
            && (FirstOfLevel(prios, q) && base == 0 ==> d.queue == q)
  {
    var p := prios[q];
    Decided(prios, q, m, maxBatch, snap);
    ScanComesCloser(snap, Only(p), Base(m, p), q);
    ScanTakesFirst(snap, p, Base(m, p), q);
  }

  lemma PickedCons(d: Decision, ds: seq<Decision>, q: nat)
    ensures Picked([d] + ds, q) <==> Serves(d, q) || Picked(ds, q)
  {
    var all := [d] + ds;
    if Picked(ds, q) {
      var k :| 0 <= k < |ds| && Serves(ds[k], q);
      assert Serves(all[k + 1], q);
    }
    if Serves(d, q) {
      assert Serves(all[0], q);
    }
    if Picked(all, q) && !Serves(d, q) {
      var k :| 0 <= k < |all| && Serves(all[k], q);
      assert Serves(ds[k - 1], q);
    }
  }

  lemma CountCons(prios: seq<Priority>, d: Decision, ds: seq<Decision>, p: Priority)
    ensures LevelCount(prios, [d] + ds, p) == (if AtLevel(prios, d, p) then 1 else 0) + LevelCount(prios, ds, p)
  {
    assert ([d] + ds)[1..] == ds;
  }

  // ---- Safe queues -----------------------------------------------------------------------------------------

  /** While q is passed over, its level is served fewer times than q is places away; not at all if the policy starts
      from place 0 and q is the first there. */
  lemma {:induction false} PassedOver(prios: seq<Priority>, q: nat, m: Memory, maxBatch: nat,
                                      snaps: seq<seq<QueueSnapshot>>)
    requires Steady(prios, q, snaps) && Safe(prios, q) && !Picked(StrictRun(m, maxBatch, snaps), q)
    ensures var count, base := LevelCount(prios, StrictRun(m, maxBatch, snaps), prios[q]), Base(m, prios[q]);
            && count < Distance(base, q, |prios|)
            && (FirstOfLevel(prios, q) && base == 0 ==> count == 0)
    decreases |snaps|
  {
    if snaps != [] {
      var p, snap := prios[q], snaps[0];
      var (d, m') := Strict(m, maxBatch, snap);
      var rest := StrictRun(m', maxBatch, snaps[1..]);
      PickedCons(d, rest, q);
      CountCons(prios, d, rest, p);
      PassedOver(prios, q, m', maxBatch, snaps[1..]);
      Decided(prios, q, m, maxBatch, snap);
      if AtLevel(prios, d, p) {
        Closer(prios, q, m, maxBatch, snap);
      } else {
        NotAbove(prios, q, d.queue);
      }
    }
  }

  /** A level served before q's own is more urgent. */
  lemma NotAbove(prios: seq<Priority>, q: nat, i: nat)
    requires q < |prios| && i < |prios| && Rank(prios[i]) <= Rank(prios[q]) && prios[i] != prios[q]
    ensures !NothingAbove(prios, q)
  {
  }

  // ---- Starving queues -------------------------------------------------------------------------------------

  /** Queues q and j always have work, the more urgent u every second time, the others never. */
  function Alternating(prios: seq<Priority>, q: nat, j: nat, u: nat, k: nat): (snap: seq<QueueSnapshot>)
    ensures Fits(prios, snap)
  {
    seq(|prios|, i requires 0 <= i < |prios| =>
      QueueSnapshot(prios[i], if i == q || i == j || (i == u && k % 2 == 1) then 1 else 0))
  }

  function AlternatingFrom(prios: seq<Priority>, q: nat, j: nat, u: nat, k: nat, len: nat)
    : (snaps: seq<seq<QueueSnapshot>>)
    ensures |snaps| == len
    ensures forall i :: 0 <= i < len ==> Fits(prios, snaps[i]) && (q < |prios| ==> snaps[i][q].count > 0)
    decreases len
  {
    if len == 0 then [] else [Alternating(prios, q, j, u, k)] + AlternatingFrom(prios, q, j, u, k + 1, len - 1)
  }

  /** u is more urgent than q, and j stands before q on q's level. */
  predicate Rivals(prios: seq<Priority>, q: nat, j: nat, u: nat) {
    && q < |prios| && j < |prios| && u < |prios|
    && Rank(prios[u]) < Rank(prios[q]) && prios[j] == prios[q]
    && Distance(0, j, |prios|) < Distance(0, q, |prios|)
  }

  lemma RivalsExist(prios: seq<Priority>, q: nat) returns (j: nat, u: nat)
    requires q < |prios| && !Safe(prios, q)
    ensures Rivals(prios, q, j, u)
  {
    u :| 0 <= u < |prios| && Rank(prios[u]) < Rank(prios[q]);
    j :| 0 <= j < |prios| && prios[j] == prios[q] && Distance(0, j, |prios|) < Distance(0, q, |prios|);
  }

  /** When u has work it is served, and the place reached on q's level is forgotten. */
  lemma UrgentTurn(prios: seq<Priority>, q: nat, j: nat, u: nat, k: nat, m: Memory, maxBatch: nat)
    requires Rivals(prios, q, j, u) && k % 2 == 1
    ensures var (d, m') := Strict(m, maxBatch, Alternating(prios, q, j, u, k));
            !d.idle && d.queue == u && Base(m', prios[q]) == 0
  {
    var snap := Alternating(prios, q, j, u, k);
    Decided(prios, q, m, maxBatch, snap);
    StrictServesBest(m, maxBatch, snap);
    assert snap[u].count > 0;
  }

  /** Otherwise q's level is served from place 0, and j comes first. */
  lemma RivalTurn(prios: seq<Priority>, q: nat, j: nat, u: nat, k: nat, m: Memory, maxBatch: nat)
    requires Rivals(prios, q, j, u) && k % 2 == 0 && Base(m, prios[q]) == 0
    ensures var d := Strict(m, maxBatch, Alternating(prios, q, j, u, k)).0;
            AtLevel(prios, d, prios[q]) && d.queue != q
  {
    var snap, p := Alternating(prios, q, j, u, k), prios[q];
    Decided(prios, q, m, maxBatch, snap);
    ScanTakesFirst(snap, p, 0, j);
    ScanTakesFirst(snap, p, 0, q);
  }

  /** One decision of such a run. */
  lemma {:induction false} OneTurn(prios: seq<Priority>, q: nat, j: nat, u: nat, k: nat, m: Memory, maxBatch: nat)
    returns (d: Decision, m': Memory)
    requires Rivals(prios, q, j, u) && (k % 2 == 0 ==> Base(m, prios[q]) == 0)
    ensures (d, m') == Strict(m, maxBatch, Alternating(prios, q, j, u, k))
    ensures !Serves(d, q) && (k % 2 == 0 ==> AtLevel(prios, d, prios[q])) && (k % 2 == 1 ==> Base(m', prios[q]) == 0)
  {
    d, m' := Strict(m, maxBatch, Alternating(prios, q, j, u, k)).0,
      Strict(m, maxBatch, Alternating(prios, q, j, u, k)).1;
    if k % 2 == 0 {
      RivalTurn(prios, q, j, u, k, m, maxBatch);
    } else {
      UrgentTurn(prios, q, j, u, k, m, maxBatch);
    }
  }

  lemma {:induction false} RunCons(m: Memory, maxBatch: nat, prios: seq<Priority>, q: nat, j: nat, u: nat, k: nat,
                                   len: nat, d: Decision, m': Memory)
    requires len > 0 && (d, m') == Strict(m, maxBatch, Alternating(prios, q, j, u, k))
    ensures StrictRun(m, maxBatch, AlternatingFrom(prios, q, j, u, k, len)) ==
            [d] + StrictRun(m', maxBatch, AlternatingFrom(prios, q, j, u, k + 1, len - 1))
  {
    var snap, rest := Alternating(prios, q, j, u, k), AlternatingFrom(prios, q, j, u, k + 1, len - 1);
    assert ([snap] + rest)[0] == snap && ([snap] + rest)[1..] == rest;
  }

  lemma OtherParity(k: nat)
    ensures (k + 1) % 2 == 1 - k % 2
  {
  }

  lemma {:induction false} StillPassedOver(prios: seq<Priority>, q: nat, k: nat, d: Decision, rest: seq<Decision>,
                                           len: nat)
    requires q < |prios| && !Serves(d, q) && (k % 2 == 0 ==> AtLevel(prios, d, prios[q]))
    requires !Picked(rest, q) && 2 * LevelCount(prios, rest, prios[q]) + (k + 1) % 2 + 1 >= len
    ensures !Picked([d] + rest, q) && 2 * LevelCount(prios, [d] + rest, prios[q]) + k % 2 >= len
  {
    OtherParity(k);
    PickedCons(d, rest, q);
    CountCons(prios, d, rest, prios[q]);
  }

  /** Any number of decisions pass q over, at least every second one at q's own level. */
  lemma {:induction false} StarvesFrom(prios: seq<Priority>, q: nat, j: nat, u: nat, k: nat, m: Memory, maxBatch: nat,
                                       len: nat) returns (ds: seq<Decision>)
    requires Rivals(prios, q, j, u) && (k % 2 == 0 ==> Base(m, prios[q]) == 0)
    ensures ds == StrictRun(m, maxBatch, AlternatingFrom(prios, q, j, u, k, len))
    ensures !Picked(ds, q) && 2 * LevelCount(prios, ds, prios[q]) + k % 2 >= len
    decreases len
  {
    if len == 0 {
      ds := [];
    } else {
      var d, m' := OneTurn(prios, q, j, u, k, m, maxBatch);
      OtherParity(k);
      ds := StarvesFrom(prios, q, j, u, k + 1, m', maxBatch, len - 1);
      StillPassedOver(prios, q, k, d, ds, len);
      RunCons(m, maxBatch, prios, q, j, u, k, len, d, m');
      ds := [d] + ds;
    }
  }

  /** A queue that is neither of the best level nor the first of its own can be passed over for ever: in a run of any
      length from the start it has work at every decision, every second decision is at its level, and none takes it. */
  lemma StrictStarves(prios: seq<Priority>, q: nat, maxBatch: nat, len: nat) returns (snaps: seq<seq<QueueSnapshot>>)
    requires q < |prios| && !Safe(prios, q)
    ensures |snaps| == len && Steady(prios, q, snaps)
    ensures var ds := StrictRun(START, maxBatch, snaps);
            !Picked(ds, q) && 2 * LevelCount(prios, ds, prios[q]) >= len
  {
    var j, u := RivalsExist(prios, q);
    snaps := AlternatingFrom(prios, q, j, u, 0, len);
    var ds := StarvesFrom(prios, q, j, u, 0, START, maxBatch, len);
  }

  /** Every run from the start, and every run from any remembered state, serves q within n decisions at its level,
      exactly when no queue is more urgent than q or q is the first of its level. */
  lemma PromptIff(prios: seq<Priority>, q: nat, maxBatch: nat)
    requires q < |prios|
    ensures (forall snaps :: Prompt(prios, q, START, maxBatch, snaps)) <==> Safe(prios, q)
    ensures (forall m, snaps :: Prompt(prios, q, m, maxBatch, snaps)) <==> Safe(prios, q)
  {
    if Safe(prios, q) {
      forall m, snaps
        ensures Prompt(prios, q, m, maxBatch, snaps)
      {
        if Steady(prios, q, snaps) && !Picked(StrictRun(m, maxBatch, snaps), q) {
          PassedOver(prios, q, m, maxBatch, snaps);
        }
      }
    } else {
      var snaps := StrictStarves(prios, q, maxBatch, 2 * |prios|);
      assert !Prompt(prios, q, START, maxBatch, snaps);
    }
  }
}
