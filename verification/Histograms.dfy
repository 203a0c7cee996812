/** perf_histogram.h and metric_histogram.h: power-of-two histograms, and how far the percentile they report is from the
    sample of that rank.  Counters do not wrap (that takes 2^64 samples); doubles are taken as reals. */
module Histograms {
  import opened Words

  // ---- Order statistics -----------------------------------------------------------------------------

  /** How many samples are less than x. */
  function Count(s: seq<nat>, x: nat): (c: nat)
    ensures c <= |s|
  {
    if s == [] then 0 else Count(s[..|s| - 1], x) + (if s[|s| - 1] < x then 1 else 0)
  }

  predicate Sorted(q: seq<nat>) { forall i, j :: 0 <= i < j < |q| ==> q[i] <= q[j] }

  lemma {:induction false} CountConcat(a: seq<nat>, b: seq<nat>, x: nat)
    ensures Count(a + b, x) == Count(a, x) + Count(b, x)
  {
    if b == [] {
      assert a + b == a;
    } else {
      var m := |b| - 1;
      assert (a + b)[..|a + b| - 1] == a + b[..m];
      CountConcat(a, b[..m], x);
    }
  }

  /** Counting does not depend on the order of the samples. */
  lemma {:induction false} CountPermutation(a: seq<nat>, b: seq<nat>, x: nat)
    requires multiset(a) == multiset(b)
    ensures Count(a, x) == Count(b, x)
    decreases |a|
  {
    assert |a| == |multiset(a)| == |multiset(b)| == |b|;
    if a != [] {
      var m := |a| - 1;
      assert a == a[..m] + [a[m]];
      assert a[m] in multiset(b);
      var j :| 0 <= j < |b| && b[j] == a[m];
      var rest := b[..j] + b[j + 1..];
      assert b == b[..j] + ([b[j]] + b[j + 1..]);
      assert multiset(rest) == multiset(b) - multiset{b[j]};
      CountPermutation(a[..m], rest, x);
      CountConcat(b[..j], [b[j]] + b[j + 1..], x);
      CountConcat([b[j]], b[j + 1..], x);
      CountConcat(b[..j], b[j + 1..], x);
      assert [b[j]][..0] == [];
    }
  }

  lemma {:induction false} CountGrows(s: seq<nat>, x: nat, y: nat)
    requires x <= y
    ensures Count(s, x) <= Count(s, y)
  {
    if s != [] {
      CountGrows(s[..|s| - 1], x, y);
    }
  }

  lemma {:induction false} CountAll(s: seq<nat>, x: nat)
    requires forall i :: 0 <= i < |s| ==> s[i] < x
    ensures Count(s, x) == |s|
  {
    if s != [] {
      CountAll(s[..|s| - 1], x);
    }
  }

  /** In sorted samples the k-th smallest is below x exactly when at least k samples are. */
  lemma {:induction false} KthBelow(q: seq<nat>, k: nat, x: nat)
    requires Sorted(q) && 1 <= k <= |q|
    ensures q[k - 1] < x <==> Count(q, x) >= k
  {
    var m := |q| - 1;
    if k <= m {
      KthBelow(q[..m], k, x);
    } else if q[m] < x {
      CountAll(q[..m], x);
    }
  }

  /** The rank asked for, and the k-th smallest sample. */
  function Rank(count: nat, p: real): (k: nat)
    requires p >= 0.0
    ensures k as real <= count as real * p < k as real + 1.0
    ensures p <= 1.0 ==> k <= count
  {
    RankFits(count as real, p);
    (count as real * p).Floor
  }

  lemma RankFits(count: real, p: real)
    requires count >= 0.0 && p >= 0.0
    ensures count * p >= 0.0 && (p <= 1.0 ==> count * p <= count)
  {
    if p <= 1.0 {
      assert count * (1.0 - p) >= 0.0;
    }
  }

  predicate Arranges(q: seq<nat>, s: seq<nat>) { Sorted(q) && multiset(q) == multiset(s) && |q| == |s| }

  ghost predicate IsKth(s: seq<nat>, k: nat, x: nat) {
    1 <= k <= |s| && exists q: seq<nat> :: Arranges(q, s) && q[k - 1] == x
  }

  /** If fewer than k samples are below `lo` and at least k below `hi`, the k-th smallest lies in [lo, hi). */
  lemma KthBetween(s: seq<nat>, k: nat, x: nat, lo: nat, hi: nat)
    requires IsKth(s, k, x) && Count(s, lo) < k <= Count(s, hi)
    ensures lo <= x < hi
  {
    var q: seq<nat> :| Arranges(q, s) && q[k - 1] == x;
    CountPermutation(q, s, lo);
    CountPermutation(q, s, hi);
    KthBelow(q, k, lo);
    KthBelow(q, k, hi);
  }

  // ---- Histogram (perf_histogram.h) --------------------------------------------------------------------

  /** Lower end of bucket i. */
  function Floor2(i: nat): nat { if i == 0 then 0 else Pow2(i) }

  lemma LogBelow(v: nat, e: nat)
    requires 0 < v < Pow2(e)
    ensures Log2(v) < e
  {
    if Log2(v) >= e {
      PowGrows(e, Log2(v));
    }
  }

  /** Bucket b contains a sample exactly when the sample lies between the bucket's ends. */
  lemma InBucket(v: nat, i: nat)
    requires v > 0
    ensures Log2(v) == i <==> Floor2(i) <= v < Floor2(i + 1)
  {
    var b := Log2(v);
    if b < i {
      PowGrows(b + 1, i);
    } else if b > i {
      PowGrows(i + 1, b);
    }
  }

  /** How many samples lie in bucket i. */
  function PerfHeld(s: seq<nat>, i: nat): int { Count(s, Floor2(i + 1)) - Count(s, Floor2(i)) }

  lemma PerfRecordDelta(s: seq<nat>, v: nat, i: nat)
    requires v > 0
    ensures PerfHeld(s + [v], i) == PerfHeld(s, i) + if i == Log2(v) then 1 else 0
  {
    assert (s + [v])[..|s|] == s;
    InBucket(v, i);
    if i > 0 {
      PowGrows(i, i + 1);
    }
  }

  class Histogram {
    const buckets: array<nat>
    var count: nat
    var sum: nat
    ghost var samples: seq<nat>

    /** Each bucket holds the number of samples between its ends. */
    ghost predicate Valid()
      reads this, buckets
    {
      && buckets.Length == 64
      && count == |samples|
      && (forall i :: 0 <= i < |samples| ==> 0 < samples[i] < WORD)
      && forall i :: 0 <= i < 64 ==> buckets[i] == PerfHeld(samples, i)
    }

    constructor ()
      ensures Valid() && samples == [] && sum == 0 && fresh(buckets)
    {
      buckets := new nat[64](_ => 0);
      count, sum, samples := 0, 0, [];
    }

    method Record(value: nat)
      requires Valid() && value < WORD
      modifies this, buckets
      ensures Valid()
      ensures samples == old(samples) + [if value == 0 then 1 else value]
      ensures sum == (old(sum) + if value == 0 then 1 else value) % WORD
    {
      var v := if value == 0 then 1 else value;
      WordIsPow2();
      LogBelow(v, 64);
      var b := Log2(v);
      ghost var was := samples;
      samples := samples + [v];
      forall i | 0 <= i < 64
        ensures PerfHeld(samples, i) == PerfHeld(was, i) + if i == b then 1 else 0
      {
        PerfRecordDelta(was, v, i);
      }
      buckets[b] := buckets[b] + 1;
      count := count + 1;
      sum := (sum + v) % WORD;
    }

    method Percentile(p: real) returns (r: nat)
      requires Valid() && p >= 0.0
      ensures count == 0 ==> r == 0
      ensures count > 0 ==> r == PerfPercentile(samples, Rank(count, p))
    {
      if count == 0 {
        return 0;
      }
      var target := Rank(count, p);
      var accum := 0;
      NoneBelowZero(samples);
      for i := 0 to 64
        invariant accum == Count(samples, Floor2(i))
        invariant PerfScan(samples, target, i) == PerfScan(samples, target, 0)
      {
        accum := accum + buckets[i];
        if accum >= target {
          return Pow2(i);
        }
      }
      return Pow2(63);
    }
  }

  lemma {:induction false} NoneBelowZero(s: seq<nat>)
    ensures Count(s, 0) == 0
  {
    if s != [] {
      NoneBelowZero(s[..|s| - 1]);
    }
  }

  /** How many samples lie in the buckets up to and including j. */
  function UpTo(s: seq<nat>, j: nat): nat { Count(s, Floor2(j + 1)) }

  /** The first bucket from i on up to whose upper end at least `target` samples lie; 64 if there is none. */
  function PerfScan(s: seq<nat>, target: nat, i: nat): (b: nat)
    requires i <= 64
    ensures i <= b <= 64
    ensures b < 64 ==> UpTo(s, b) >= target
    ensures forall j :: i <= j < b ==> UpTo(s, j) < target
    decreases 64 - i
  {
    if i == 64 || UpTo(s, i) >= target then i else PerfScan(s, target, i + 1)
  }

  function PerfPercentile(s: seq<nat>, target: nat): nat {
    var b := PerfScan(s, target, 0);
    if b < 64 then Pow2(b) else Pow2(63)
  }

  /** The reported percentile r satisfies r <= x < 2r for the k-th smallest sample x, zero being recorded as one. */
  lemma PerfPercentileError(s: seq<nat>, k: nat, x: nat)
    requires IsKth(s, k, x) && forall i :: 0 <= i < |s| ==> 0 < s[i] < WORD
    ensures PerfPercentile(s, k) <= x < 2 * PerfPercentile(s, k)
  {
    WordIsPow2();
    CountAll(s, Floor2(64));
    assert UpTo(s, 63) == |s|;
    var b := PerfScan(s, k, 0);
    NoneBelowZero(s);
    assert b > 0 ==> UpTo(s, b - 1) < k;
    KthBetween(s, k, x, Floor2(b), Floor2(b + 1));
    KthIsSample(s, k, x);
  }

  lemma KthIsSample(s: seq<nat>, k: nat, x: nat)
    requires IsKth(s, k, x)
    ensures x in s
  {
    var q: seq<nat> :| Arranges(q, s) && q[k - 1] == x;
    assert x in multiset(q);
  }

  // ---- MetricLatency (metric_histogram.h) ------------------------------------------------------------

  /** Lower end, in nanoseconds, of bucket i: 0, 1us, 2us, 4us, ... */
  function Edge(i: nat): nat { if i == 0 then 0 else 1000 * Pow2(i - 1) }

  /** bucket_index: everything from 2^30 us on falls into bucket 31. */
  function BucketIndex(ns: nat): (i: nat)
    ensures i < 32
    ensures Edge(i) <= ns && (i < 31 ==> ns < Edge(i + 1))
  {
    var us := ns / 1000;
    if us == 0 then 0
    else
      var i := Log2(us) + 1;
      if i >= 32 then PowGrows(30, Log2(us)); 31 else i
  }

  lemma EdgeGrows(i: nat, j: nat)
    requires i <= j
    ensures Edge(i) <= Edge(j)
  {
    if 0 < i {
      PowGrows(i - 1, j - 1);
    }
  }

  /** The bucket of a sample is the one whose ends enclose it. */
  lemma InLatencyBucket(ns: nat, i: nat)
    requires i < 32
    ensures BucketIndex(ns) == i <==> Edge(i) <= ns && (i < 31 ==> ns < Edge(i + 1))
  {
    var b := BucketIndex(ns);
    if b < i {
      EdgeGrows(b + 1, i);
    } else if b > i {
      EdgeGrows(i + 1, b);
    }
  }

  /** How many samples lie in the buckets up to and including j. */
  function LatencyUpTo(s: seq<nat>, j: nat): (c: nat)
    ensures c <= |s|
  {
    if j < 31 then Count(s, Edge(j + 1)) else |s|
  }

  function Before(s: seq<nat>, i: nat): (c: nat)
    ensures c <= |s|
  {
    if i == 0 then 0 else LatencyUpTo(s, i - 1)
  }

  /** How many samples lie in bucket i. */
  function Held(s: seq<nat>, i: nat): nat {
    BeforeGrows(s, i);
    LatencyUpTo(s, i) - Before(s, i)
  }

  lemma BeforeGrows(s: seq<nat>, i: nat)
    ensures Before(s, i) <= LatencyUpTo(s, i)
  {
    if 0 < i < 31 {
      EdgeGrows(i, i + 1);
      CountGrows(s, Edge(i), Edge(i + 1));
    }
  }

  function LatencyScan(s: seq<nat>, target: nat, i: nat): (b: nat)
    requires i <= 32
    ensures i <= b <= 32
    ensures b < 32 ==> LatencyUpTo(s, b) >= target
    ensures forall j :: i <= j < b ==> LatencyUpTo(s, j) < target
    decreases 32 - i
  {
    if i == 32 || LatencyUpTo(s, i) >= target then i else LatencyScan(s, target, i + 1)
  }

  /** Upper end used for interpolation in bucket i. */
  function High(i: nat): nat { if i == 0 then 1000 else 2 * Edge(i) }

  /** `r` is as far from `lo`, in proportion to `width`, as a is to n, rounded down. */
  predicate Interpolates(lo: nat, width: nat, a: nat, n: nat, r: nat) {
    lo <= r && (r - lo) * n <= width * a < (r - lo + 1) * n
  }

  /** Linear interpolation inside a bucket of n samples that starts at `lo`, `a` places into it: the upper end is
      reached exactly at the bucket's last sample. */
  function Lerp(lo: nat, width: nat, a: nat, n: nat): (r: nat)
    requires a <= n && n > 0
    ensures lo <= r <= lo + width
    ensures width > 0 ==> (r < lo + width <==> a < n)
  {
    lo + Portion(width, a, n)
  }

  /** The part a / n of a width, rounded down. */
  function Portion(width: nat, a: nat, n: nat): (r: nat)
    requires a <= n && n > 0
    ensures r <= width
    ensures width > 0 ==> (r < width <==> a < n)
  {
    var x := Scaled(width as real, a as real, n as real);
    FloorWithin(x, width);
    x.Floor
  }

  lemma LerpInterpolates(lo: nat, width: nat, a: nat, n: nat)
    requires a <= n && n > 0
    ensures Interpolates(lo, width, a, n, Lerp(lo, width, a, n))
  {
    Quotient(width as real, a as real, n as real);
    FloorOfQuotient(Scaled(width as real, a as real, n as real), width, a, n);
  }

  lemma FloorOfQuotient(x: real, width: nat, a: nat, n: nat)
    requires n > 0 && x * n as real == width as real * a as real
    ensures x.Floor * n <= width * a < (x.Floor + 1) * n
  {
    FloorBounds(x);
    FloorTimes(x, x.Floor as real, (x.Floor + 1) as real, n as real, width as real * a as real);
    ProductAsReal(width, a);
    ProductAsReal(x.Floor, n);
    ProductAsReal(x.Floor + 1, n);
    IntOrder(x.Floor * n, width * a, (x.Floor + 1) * n);
  }

  lemma FloorBounds(x: real)
    ensures x.Floor as real <= x < (x.Floor + 1) as real
  {
  }

  lemma FloorTimes(x: real, lo: real, hi: real, n: real, y: real)
    requires lo <= x < hi && n > 0.0 && x * n == y
    ensures lo * n <= y < hi * n
  {
    assert (x - lo) * n >= 0.0;
    assert (hi - x) * n > 0.0;
  }

  lemma ProductAsReal(x: int, y: int)
    ensures (x * y) as real == x as real * y as real
  {
  }

  lemma IntOrder(x: int, y: int, z: int)
    requires x as real <= y as real < z as real
    ensures x <= y < z
  {
  }

  function Scaled(width: real, a: real, n: real): (x: real)
    requires width >= 0.0 && 0.0 <= a <= n && n > 0.0
    ensures 0.0 <= x <= width
    ensures width > 0.0 ==> (x < width <==> a < n)
  {
    Fraction(width, a, n);
    width * (a / n)
  }

  lemma Quotient(width: real, a: real, n: real)
    requires n > 0.0
    ensures width * (a / n) * n == width * a
  {
    var f := a / n;
    assert f * n == a;
    Reassociate(width, f, n);
  }

  lemma Reassociate(x: real, y: real, z: real)
    ensures x * y * z == x * (y * z)
  {
  }

  lemma FloorWithin(x: real, width: nat)
    requires 0.0 <= x <= width as real
    ensures 0 <= x.Floor <= width && (x.Floor < width <==> x < width as real)
  {
  }

  lemma Fraction(width: real, a: real, n: real)
    requires width >= 0.0 && 0.0 <= a <= n && n > 0.0
    ensures 0.0 <= width * (a / n) <= width
    ensures a == n ==> width * (a / n) == width
    ensures a < n && width > 0.0 ==> width * (a / n) < width
  {
    var f := a / n;
    assert 0.0 <= f <= 1.0 && (f == 1.0 <==> a == n);
    ScaleDown(width, f);
  }

  lemma ScaleDown(width: real, f: real)
    requires width >= 0.0 && 0.0 <= f <= 1.0
    ensures 0.0 <= width * f <= width
    ensures f < 1.0 && width > 0.0 ==> width * f < width
  {
    assert width * (1.0 - f) >= 0.0;
    if f < 1.0 && width > 0.0 {
      assert width * (1.0 - f) > 0.0;
    }
  }

  function LatencyPercentile(s: seq<nat>, target: nat): nat {
    var b := LatencyScan(s, target, 0);
    if b == 32 then Edge(32)
    else if Held(s, b) == 0 || target < Before(s, b) then Edge(b)
    else Lerp(Edge(b), High(b) - Edge(b), target - Before(s, b), Held(s, b))
  }

  class MetricLatency {
    const buckets: array<nat>
    var totalCount: nat
    var totalSum: nat
    ghost var samples: seq<nat>

    ghost predicate Valid()
      reads this, buckets
    {
      && buckets.Length == 32
      && totalCount == |samples|
      && forall i :: 0 <= i < 32 ==> buckets[i] == Held(samples, i)
    }

    constructor ()
      ensures Valid() && samples == [] && totalSum == 0 && fresh(buckets)
    {
      buckets := new nat[32](_ => 0);
      totalCount, totalSum, samples := 0, 0, [];
    }

    method Record(ns: nat)
      requires Valid() && ns < WORD
      modifies this, buckets
      ensures Valid()
      ensures samples == old(samples) + [ns]
      ensures totalSum == (old(totalSum) + ns) % WORD
    {
      var idx := BucketIndex(ns);
      ghost var was := samples;
      samples := samples + [ns];
      forall i | 0 <= i < 32
        ensures Held(samples, i) == Held(was, i) + if i == idx then 1 else 0
      {
        RecordDelta(was, ns, i);
      }
      buckets[idx] := buckets[idx] + 1;
      totalCount := totalCount + 1;
      totalSum := (totalSum + ns) % WORD;
    }

    method Percentile(p: real) returns (r: nat)
      requires Valid() && p >= 0.0
      ensures totalCount == 0 ==> r == 0
      ensures totalCount > 0 ==> r == LatencyPercentile(samples, Rank(totalCount, p))
    {
      if totalCount == 0 {
        return 0;
      }
      var target := Rank(totalCount, p);
      var cumulative, lo := 0, 0;
      for i := 0 to 32
        invariant cumulative == Before(samples, i) && lo == Edge(i)
        invariant i > 0 ==> cumulative < target
        invariant LatencyScan(samples, target, i) == LatencyScan(samples, target, 0)
      {
        var n := buckets[i];
        cumulative := cumulative + n;
        if cumulative >= target {
          var hi := if i == 0 then 1000 else lo * 2;
          var prev := cumulative - n;
          assert LatencyScan(samples, target, 0) == i && hi == High(i) && prev == Before(samples, i);
          if n == 0 {
            break;
          }
          return Lerp(lo, hi - lo, target - prev, n);
        }
        lo := if i == 0 then 1000 else lo * 2;
      }
      return lo;
    }
  }

  /** One more sample counts once, in its own bucket. */
  lemma RecordDelta(s: seq<nat>, ns: nat, i: nat)
    requires i < 32
    ensures Held(s + [ns], i) == Held(s, i) + if i == BucketIndex(ns) then 1 else 0
  {
    assert (s + [ns])[..|s|] == s;
    InLatencyBucket(ns, i);
    EdgeGrows(i, i + 1);
  }

  /** The scan stops in the bucket of the k-th smallest sample, which is not empty. */
  lemma LatencyBucketOfKth(s: seq<nat>, k: nat, x: nat)
    requires IsKth(s, k, x)
    ensures LatencyScan(s, k, 0) == BucketIndex(x)
    ensures Before(s, BucketIndex(x)) < k <= LatencyUpTo(s, BucketIndex(x))
  {
    assert LatencyUpTo(s, 31) == |s|;
    var b := LatencyScan(s, k, 0);
    assert b > 0 ==> LatencyUpTo(s, b - 1) < k;
    var q: seq<nat> :| Arranges(q, s) && q[k - 1] == x;
    CountPermutation(q, s, Edge(b));
    CountPermutation(q, s, Edge(b + 1));
    KthBelow(q, k, Edge(b));
    KthBelow(q, k, Edge(b + 1));
    InLatencyBucket(x, b);
  }

  /** For the k-th smallest sample x the reported value lies in the closed range of x's bucket (in the last, open
      bucket, between its lower end and twice that), as far into it as k is into the samples of the bucket, rounded
      down.  It is strictly below the upper end, as the half-open bucket
      demands, exactly when the rank k is not the last of that bucket. */
  lemma LatencyPercentileBucket(s: seq<nat>, k: nat, x: nat)
    requires IsKth(s, k, x)
    ensures var r, b := LatencyPercentile(s, k), BucketIndex(x);
            && Edge(b) <= r <= High(b) && (b < 31 ==> High(b) == Edge(b + 1))
            && (r < High(b) <==> k < LatencyUpTo(s, b))
            && Before(s, b) < k && Interpolates(Edge(b), High(b) - Edge(b), k - Before(s, b), Held(s, b), r)
  {
    var b := BucketIndex(x);
    LatencyIsLerp(s, k, x);
    LerpInterpolates(Edge(b), High(b) - Edge(b), k - Before(s, b), Held(s, b));
  }

  lemma LatencyIsLerp(s: seq<nat>, k: nat, x: nat)
    requires IsKth(s, k, x)
    ensures var b := BucketIndex(x);
            && Before(s, b) < k <= LatencyUpTo(s, b) && Edge(b) < High(b) && (b < 31 ==> High(b) == Edge(b + 1))
            && LatencyPercentile(s, k) == Lerp(Edge(b), High(b) - Edge(b), k - Before(s, b), Held(s, b))
  {
    LatencyBucketOfKth(s, k, x);
    WidthIsPositive(BucketIndex(x));
  }

  lemma WidthIsPositive(i: nat)
    ensures Edge(i) < High(i) && (i < 31 ==> High(i) == Edge(i + 1))
  {
  }

  /** A single sample of 500 ns at p = 1.0 is reported as 1000 ns, the lower end of the next bucket. */
  lemma LatencyAboveItsBucket()
    ensures IsKth([500], 1, 500) && BucketIndex(500) == 0
    ensures LatencyPercentile([500], 1) == 1000 == Edge(1)
  {
    assert Arranges([500], [500]);
    assert IsKth([500], 1, 500);
    LatencyPercentileBucket([500], 1, 500);
    assert [500][..0] == [];
    assert Count([500], 1000) == 1;
    assert Edge(1) == 1000;
  }

  // ---- Ranks below one ------------------------------------------------------------------------------------

  lemma {:induction false} LeastOf(s: seq<nat>) returns (i: nat)
    requires s != []
    ensures i < |s| && forall j :: 0 <= j < |s| ==> s[i] <= s[j]
  {
    var m := |s| - 1;
    i := m;
    if m > 0 {
      var k := LeastOf(s[..m]);
      assert forall j :: 0 <= j < m ==> s[..m][j] == s[j];
      if s[k] < s[m] {
        i := k;
      }
    }
  }

  lemma {:induction false} Sort(s: seq<nat>) returns (q: seq<nat>)
    ensures Arranges(q, s)
    decreases |s|
  {
    if s == [] {
      q := [];
    } else {
      var i := LeastOf(s);
      var rest := s[..i] + s[i + 1..];
      assert s == s[..i] + [s[i]] + s[i + 1..];
      var tail := Sort(rest);
      q := [s[i]] + tail;
      forall j | 0 <= j < |tail|
        ensures s[i] <= tail[j]
      {
        assert tail[j] in multiset(rest);
        assert tail[j] in s;
      }
    }
  }

  lemma KthExists(s: seq<nat>, k: nat) returns (x: nat)
    requires 1 <= k <= |s|
    ensures IsKth(s, k, x) && x in s
  {
    var q := Sort(s);
    x := q[k - 1];
    assert Arranges(q, s) && q[k - 1] == x;
    KthIsSample(s, k, x);
  }

  /** Histogram::percentile reports a value within a factor of two of some sample exactly when count * p is at least
      one or a sample of at most one was recorded; otherwise it reports one, whatever the samples are. */
  lemma WithinFactorTwoIff(s: seq<nat>, p: real)
    requires s != [] && 0.0 <= p <= 1.0 && forall i :: 0 <= i < |s| ==> 0 < s[i] < WORD
    ensures var r := PerfPercentile(s, Rank(|s|, p));
            && ((exists x :: x in s && r <= x < 2 * r) <==> |s| as real * p >= 1.0 || 1 in s)
            && (|s| as real * p < 1.0 ==> r == 1)
  {
    var k := Rank(|s|, p);
    if k >= 1 {
      var x := KthExists(s, k);
      PerfPercentileError(s, k, x);
    } else {
      assert PerfScan(s, 0, 0) == 0 && Pow2(0) == 1;
      assert 1 in s ==> 1 <= 1 < 2 * PerfPercentile(s, 0);
    }
  }

  /** MetricLatency::percentile reports a value in the range of some sample's bucket exactly when count * p is at
      least one or some sample is below a microsecond; otherwise it reports zero, whatever the samples are. */
  lemma InSomeBucketIff(s: seq<nat>, p: real)
    requires s != [] && 0.0 <= p <= 1.0
    ensures var r := LatencyPercentile(s, Rank(|s|, p));
            && ((exists x :: x in s && Edge(BucketIndex(x)) <= r <= High(BucketIndex(x)))
                <==> |s| as real * p >= 1.0 || exists x :: x in s && x < 1000)
            && (|s| as real * p < 1.0 ==> r == 0)
  {
    var k := Rank(|s|, p);
    if k >= 1 {
      var x := KthExists(s, k);
      LatencyPercentileBucket(s, k, x);
    } else {
      ZeroRank(s);
      forall x | x in s
        ensures Edge(BucketIndex(x)) <= 0 <==> x < 1000
      {
        InLatencyBucket(x, 0);
        EdgeGrows(1, if BucketIndex(x) == 0 then 1 else BucketIndex(x));
      }
    }
  }

  lemma ZeroRank(s: seq<nat>)
    ensures LatencyPercentile(s, 0) == 0
  {
    assert LatencyScan(s, 0, 0) == 0 && Before(s, 0) == 0 && Edge(0) == 0;
  }
}
