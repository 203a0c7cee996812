/** weighted_fair_policy.cc: serve the non-empty queue with the least virtual time and charge it batch / weight.
    Doubles are taken as reals and weights as positive. */
module WeightedFair {
  import opened Words
  import opened Policies

  predicate Positive(weights: seq<real>) { forall i :: 0 <= i < |weights| ==> weights[i] > 0.0 }

  /** The first queue with the least virtual time among the non-empty ones of the first `k`; `k` if there is none. */
  function Best(vt: seq<real>, counts: seq<nat>, k: nat): (b: nat)
    requires k <= |counts| == |vt|
    ensures b <= k
    ensures b < k ==> counts[b] > 0 && forall i :: 0 <= i < k && counts[i] > 0 ==> vt[b] <= vt[i]
    ensures forall i :: 0 <= i < b < k && counts[i] > 0 ==> vt[b] < vt[i]
    ensures b == k ==> forall i :: 0 <= i < k ==> counts[i] == 0
  {
    if k == 0 then 0
    else
      var b := Best(vt, counts, k - 1);
      if counts[k - 1] > 0 && (b == k - 1 || vt[k - 1] < vt[b]) then k - 1
      else if b == k - 1 then k else b
  }

  function Fit(v: seq<real>, n: nat, fill: real): (r: seq<real>)
    ensures |r| == n
  {
    if |v| == n then v else seq(n, _ => fill)
  }

  function Charge(vt: seq<real>, weights: seq<real>, maxBatch: nat, counts: seq<nat>): (r: (Decision, seq<real>))
    requires |vt| == |weights| == |counts| && Positive(weights)
    ensures |r.1| == |vt|
  {
    var b := Best(vt, counts, |counts|);
    if b == |counts| then (IDLE, vt)
    else
      var batch := Min(counts[b], maxBatch);
      (Decision(b, batch, false), vt[b := vt[b] + batch as real / weights[b]])
  }

  class WeightedFairPolicy {
    const maxBatch: nat
    var virtualTime: seq<real>
    var weights: seq<real>

    constructor (weights: seq<real>, maxBatch: nat)
      ensures this.weights == weights && this.maxBatch == maxBatch && virtualTime == []
    {
      this.weights := weights;
      this.maxBatch := maxBatch;
      virtualTime := [];
    }

    /** The minimum-search loop. */
    method FindBest(counts: seq<nat>) returns (best: nat, found: bool)
      requires |virtualTime| == |counts|
      ensures found <==> Best(virtualTime, counts, |counts|) < |counts|
      ensures found ==> best == Best(virtualTime, counts, |counts|)
    {
      best, found := 0, false;
      for i := 0 to |counts|
        invariant found ==> best == Best(virtualTime, counts, i) < i
        invariant !found ==> best == 0 && Best(virtualTime, counts, i) == i
      {
        if counts[i] > 0 {
          if !found || virtualTime[i] < virtualTime[best] {
            best := i;
            found := true;
          }
        }
      }
    }

    method Decide(counts: seq<nat>) returns (d: Decision)
      requires Positive(weights)
      modifies this
      ensures var n := |counts|;
              && weights == Fit(old(weights), n, 1.0) && Positive(weights)
              && (d, virtualTime) == Charge(Fit(old(virtualTime), n, 0.0), weights, maxBatch, counts)
    {
      var n := |counts|;
      if |virtualTime| != n {
        virtualTime := seq(n, _ => 0.0);
      }
      if |weights| != n {
        weights := seq(n, _ => 1.0);
      }
      var best, found := FindBest(counts);
      if !found {
        return IDLE;
      }
      var batch := Min(counts[best], maxBatch);
      virtualTime := virtualTime[best := virtualTime[best] + batch as real / weights[best]];
      return Decision(best, batch, false);
    }
  }

  /** The decision is work-conserving and picks the first of the queues that have been served least in proportion to
      their weight. */
  lemma ServesLeastServed(vt: seq<real>, weights: seq<real>, maxBatch: nat, counts: seq<nat>)
    requires |vt| == |weights| == |counts| && Positive(weights)
    ensures var d := Charge(vt, weights, maxBatch, counts).0;
            && (d.idle <==> forall i :: 0 <= i < |counts| ==> counts[i] == 0)
            && (!d.idle ==> d.queue < |counts| && counts[d.queue] > 0 && d.batch == Min(counts[d.queue], maxBatch)
                            && (forall i :: 0 <= i < |counts| && counts[i] > 0 ==> vt[d.queue] <= vt[i])
                            && forall i :: 0 <= i < d.queue && counts[i] > 0 ==> vt[d.queue] < vt[i])
  {
  }

  // ---- Runs -------------------------------------------------------------------------------------------

  /** Virtual times and total service per queue after a run of decisions that starts from zero. */
  datatype Account = Account(vt: seq<real>, served: seq<nat>)

  predicate Fits(snaps: seq<seq<nat>>, n: nat) { forall k :: 0 <= k < |snaps| ==> |snaps[k]| == n }

  function Run(weights: seq<real>, maxBatch: nat, snaps: seq<seq<nat>>): (a: Account)
    requires Positive(weights) && Fits(snaps, |weights|)
    ensures |a.vt| == |a.served| == |weights|
  {
    if snaps == [] then Account(seq(|weights|, _ => 0.0), seq(|weights|, _ => 0))
    else
      var m := |snaps| - 1;
      var a := Run(weights, maxBatch, snaps[..m]);
      var (d, vt) := Charge(a.vt, weights, maxBatch, snaps[m]);
      Account(vt, if d.idle || d.queue >= |weights| then a.served
                  else a.served[d.queue := a.served[d.queue] + d.batch])
  }

  lemma DivideSum(x: real, y: real, w: real)
    requires w > 0.0
    ensures (x + y) / w == x / w + y / w
  {
  }

  lemma DivideOrder(x: real, y: real, w: real)
    requires w > 0.0 && x <= y
    ensures x / w <= y / w
  {
  }

  /** Virtual time is service divided by weight. */
  lemma {:induction false} VirtualTimeIsService(weights: seq<real>, maxBatch: nat, snaps: seq<seq<nat>>, i: nat)
    requires Positive(weights) && Fits(snaps, |weights|) && i < |weights|
    ensures var a := Run(weights, maxBatch, snaps); a.vt[i] == a.served[i] as real / weights[i]
  {
    if snaps != [] {
      var m := |snaps| - 1;
      VirtualTimeIsService(weights, maxBatch, snaps[..m], i);
      var a := Run(weights, maxBatch, snaps[..m]);
      var (d, vt) := Charge(a.vt, weights, maxBatch, snaps[m]);
      if !d.idle && d.queue == i {
        DivideSum(a.served[i] as real, d.batch as real, weights[i]);
      }
    }
  }

  /** One decision keeps the gap: only the least virtual time grows, and by at most one full batch. */
  lemma GapStep(vt: seq<real>, weights: seq<real>, maxBatch: nat, counts: seq<nat>, i: nat, j: nat)
    requires |vt| == |weights| == |counts| && Positive(weights) && i < |vt| && j < |vt| && counts[j] > 0
    requires vt[i] - vt[j] <= maxBatch as real / weights[i]
    ensures var vt' := Charge(vt, weights, maxBatch, counts).1; vt'[i] - vt'[j] <= maxBatch as real / weights[i]
  {
    var b := Best(vt, counts, |counts|);
    var batch := Min(counts[b], maxBatch);
    DivideOrder(0.0, batch as real, weights[b]);
    DivideOrder(batch as real, maxBatch as real, weights[b]);
  }

  lemma {:induction false} VirtualTimeGap(weights: seq<real>, maxBatch: nat, snaps: seq<seq<nat>>, i: nat, j: nat)
    requires Positive(weights) && Fits(snaps, |weights|) && i < |weights| && j < |weights|
    requires forall k :: 0 <= k < |snaps| ==> snaps[k][j] > 0
    ensures var a := Run(weights, maxBatch, snaps); a.vt[i] - a.vt[j] <= maxBatch as real / weights[i]
  {
    if snaps == [] {
      DivideOrder(0.0, maxBatch as real, weights[i]);
    } else {
      var m := |snaps| - 1;
      VirtualTimeGap(weights, maxBatch, snaps[..m], i, j);
      GapStep(Run(weights, maxBatch, snaps[..m]).vt, weights, maxBatch, snaps[m], i, j);
    }
  }

  /** The fairness bound: in any run in which queue j is non-empty at every decision, queue i is never ahead of it by
      more than one full batch, each measured in proportion to its weight. */
  lemma FairnessBound(weights: seq<real>, maxBatch: nat, snaps: seq<seq<nat>>, i: nat, j: nat)
    requires Positive(weights) && Fits(snaps, |weights|) && i < |weights| && j < |weights|
    requires forall k :: 0 <= k < |snaps| ==> snaps[k][j] > 0
    ensures var served := Run(weights, maxBatch, snaps).served;
            served[i] as real / weights[i] - served[j] as real / weights[j] <= maxBatch as real / weights[i]
  {
    VirtualTimeIsService(weights, maxBatch, snaps, i);
    VirtualTimeIsService(weights, maxBatch, snaps, j);
    VirtualTimeGap(weights, maxBatch, snaps, i, j);
  }
}
