/** The latency histogram of the stress driver: logarithmic buckets whose percentiles are
    compared with the exact order statistics of the recorded samples. */
module LatencyHistogram {

  const GROWTH: real := 1.05
  const FLOOR: real := 0.1
  const BUCKETS: nat := 340

  /** `_value_at`: the lower edge of a bucket. */
  function ValueAt(index: nat): (v: real)
    ensures v > 0.0
  {
    if index == 0 then FLOOR else GROWTH * ValueAt(index - 1)
  }

  lemma {:induction false} EdgesIncrease(i: nat, j: nat)
    requires i < j
    ensures ValueAt(i) < ValueAt(j)
    decreases j
  {
    if i < j - 1 { EdgesIncrease(i, j - 1); }
  }

  lemma EdgesOrdered(i: nat, j: nat)
    ensures ValueAt(i) <= ValueAt(j) <==> i <= j
  {
    if i < j { EdgesIncrease(i, j); }
    if j < i { EdgesIncrease(j, i); }
  }

  /** The bucket of a sample: the last one, up to `from`, whose lower edge it reaches, and the
      first bucket when it reaches none. This is the floor of the logarithm, clamped. */
  function IndexFrom(ms: real, from: nat): (i: nat)
    ensures i <= from
    ensures i == 0 || ValueAt(i) <= ms
    ensures i == from || ms < ValueAt(i + 1)
  {
    if from == 0 || ValueAt(from) <= ms then from
    else
      IndexFrom(ms, from - 1)
  }

  function Index(ms: real): (i: nat)
    ensures i < BUCKETS
  {
    IndexFrom(ms, BUCKETS - 1)
  }

  /** Samples the buckets can tell apart. */
  predicate InRange(ms: real) { FLOOR <= ms < ValueAt(BUCKETS) }

  /** A sample lies between its bucket's lower edge and 1.05 times that edge exactly when it is
      in range. */
  lemma BucketBounds(ms: real)
    ensures ValueAt(Index(ms)) <= ms < GROWTH * ValueAt(Index(ms)) <==> InRange(ms)
  {
    var i := Index(ms);
    assert ValueAt(i + 1) == GROWTH * ValueAt(i);
    EdgesOrdered(i + 1, BUCKETS);
    EdgesOrdered(0, i);
    assert ValueAt(0) == FLOOR;
  }

  lemma IndexMonotone(x: real, y: real)
    requires x <= y
    ensures Index(x) <= Index(y)
  {
    var i, j := Index(x), Index(y);
    if j < i {
      EdgesOrdered(j + 1, i);
    }
  }

  lemma AtFloor(ms: real)
    ensures ms <= FLOOR ==> Index(ms) == 0
  {
    EdgesOrdered(Index(ms), 0);
  }

  // ----- Counting samples -----

  ghost function CountIf(samples: seq<real>, p: real -> bool): nat {
    if samples == [] then 0 else CountIf(samples[..|samples|-1], p) + if p(samples[|samples|-1]) then 1 else 0
  }

  lemma {:induction false} CountMonotone(samples: seq<real>, p: real -> bool, q: real -> bool)
    requires forall x :: x in samples && p(x) ==> q(x)
    ensures CountIf(samples, p) <= CountIf(samples, q) <= |samples|
    decreases |samples|
  {
    if samples != [] {
      var last := samples[|samples|-1];
      assert last in samples;
      CountMonotone(samples[..|samples|-1], p, q);
    }
  }

  lemma CountSame(samples: seq<real>, p: real -> bool, q: real -> bool)
    requires forall x :: x in samples ==> p(x) == q(x)
    ensures CountIf(samples, p) == CountIf(samples, q)
  {
    CountMonotone(samples, p, q);
    CountMonotone(samples, q, p);
  }

  lemma {:induction false} CountSome(samples: seq<real>, p: real -> bool)
    requires CountIf(samples, p) > 0
    ensures exists x :: x in samples && p(x)
    decreases |samples|
  {
    var last := samples[|samples|-1];
    if !p(last) {
      CountSome(samples[..|samples|-1], p);
      var x :| x in samples[..|samples|-1] && p(x);
    }
  }

  lemma {:induction false} CountAll(samples: seq<real>, p: real -> bool)
    requires forall x :: x in samples ==> p(x)
    ensures CountIf(samples, p) == |samples|
    decreases |samples|
  {
    if samples != [] {
      var last := samples[|samples|-1];
      assert last in samples && p(last);
      CountAll(samples[..|samples|-1], p);
    }
  }

  lemma {:induction false} CountNone(samples: seq<real>, p: real -> bool)
    requires forall x :: x in samples ==> !p(x)
    ensures CountIf(samples, p) == 0
    decreases |samples|
  {
    if samples != [] {
      var last := samples[|samples|-1];
      assert last in samples && !p(last);
      CountNone(samples[..|samples|-1], p);
    }
  }

  ghost function Below(samples: seq<real>, x: real): nat { CountIf(samples, y => y < x) }
  ghost function AtMost(samples: seq<real>, x: real): nat { CountIf(samples, y => y <= x) }
  ghost function InBucket(samples: seq<real>, i: nat): nat { CountIf(samples, y => Index(y) == i) }
  ghost function UpToBucket(samples: seq<real>, i: int): nat { CountIf(samples, y => Index(y) <= i) }

  lemma {:induction false} UpToBucketStep(samples: seq<real>, i: nat)
    ensures UpToBucket(samples, i) == UpToBucket(samples, i - 1) + InBucket(samples, i)
    decreases |samples|
  {
    if samples != [] { UpToBucketStep(samples[..|samples|-1], i); }
  }

  lemma UpToBucketBounds(samples: seq<real>, i: int)
    ensures UpToBucket(samples, i) <= |samples|
    ensures i < 0 ==> UpToBucket(samples, i) == 0
    ensures i >= BUCKETS - 1 ==> UpToBucket(samples, i) == |samples|
  {
    hide IndexFrom;
    CountMonotone(samples, y => Index(y) <= i, y => Index(y) <= i);
    if i < 0 { CountNone(samples, y => Index(y) <= i); }
    if i >= BUCKETS - 1 { CountAll(samples, y => Index(y) <= i); }
  }

  lemma TargetBounds(fraction: real, count: nat)
    requires count > 0
    ensures fraction > 1.0 <==> fraction * count as real > count as real
  {
    assert (fraction - 1.0) * count as real == fraction * count as real - count as real;
  }

  // ----- Exact order statistics -----

  /** x is the k-th smallest sample: fewer than k samples are smaller, at least k are no larger. */
  ghost predicate KthSmallest(samples: seq<real>, k: int, x: real) {
    x in samples && Below(samples, x) < k <= AtMost(samples, x)
  }

  /** The largest sample satisfying p. */
  lemma {:induction false} Largest(samples: seq<real>, p: real -> bool) returns (x: real)
    requires exists y :: y in samples && p(y)
    ensures x in samples && p(x) && forall y :: y in samples && p(y) ==> y <= x
    decreases |samples|
  {
    var last, rest := samples[|samples|-1], samples[..|samples|-1];
    if y :| y in rest && p(y) {
      x := Largest(rest, p);
      if p(last) && last > x { x := last; }
    } else {
      x := last;
      var y :| y in samples && p(y);
    }
  }

  lemma {:induction false} DescendToKth(samples: seq<real>, k: nat, from: real) returns (x: real)
    requires k >= 1 && from in samples && k <= AtMost(samples, from)
    ensures KthSmallest(samples, k, x)
    decreases Below(samples, from)
  {
    if Below(samples, from) < k {
      x := from;
    } else {
      CountSome(samples, y => y < from);
      var y := Largest(samples, y => y < from);
      CountSame(samples, z => z < from, z => z <= y);
      CountBelow(samples, y);
      x := DescendToKth(samples, k, y);
    }
  }

  /** A sample is not below itself. */
  lemma {:induction false} CountBelow(samples: seq<real>, x: real)
    requires x in samples
    ensures Below(samples, x) < AtMost(samples, x)
    decreases |samples|
  {
    var rest := samples[..|samples|-1];
    if x in rest {
      CountBelow(rest, x);
    } else {
      CountMonotone(rest, y => y < x, y => y <= x);
    }
  }

  /** Every rank has its sample. */
  lemma KthExists(samples: seq<real>, k: nat) returns (x: real)
    requires 1 <= k <= |samples|
    ensures KthSmallest(samples, k, x)
  {
    var first := samples[0];
    assert first in samples;
    var top := Largest(samples, _ => true);
    CountAll(samples, y => y <= top);
    x := DescendToKth(samples, k, top);
  }

  /** ceil(fraction * count). */
  function Rank(fraction: real, count: nat): int { -((-(fraction * count as real)).Floor) }

  lemma RankBounds(fraction: real, count: nat)
    requires 0.0 < fraction <= 1.0 && count > 0
    ensures 1 <= Rank(fraction, count) <= count
    ensures (Rank(fraction, count) - 1) as real < fraction * count as real <= Rank(fraction, count) as real
  {
    var t := fraction * count as real;
    assert 0.0 < t <= count as real;
  }

  // ----- Percentiles of the histogram -----

  /** The first bucket from `i` on at which the samples seen reach the target. */
  ghost function FirstReaching(samples: seq<real>, target: real, i: nat): (r: nat)
    requires i <= BUCKETS
    ensures i <= r <= BUCKETS
    ensures forall j :: i <= j < r ==> (UpToBucket(samples, j) as real) < target
    ensures r < BUCKETS ==> UpToBucket(samples, r) as real >= target
    decreases BUCKETS - i
  {
    if i == BUCKETS || UpToBucket(samples, i) as real >= target then i else FirstReaching(samples, target, i + 1)
  }

  /** The lower edge of the first bucket at which the fraction of the samples is reached. */
  ghost function PercentileOf(samples: seq<real>, fraction: real): real {
    ValueAt(FirstReaching(samples, fraction * |samples| as real, 0))
  }

  /** For any rank in range, the first bucket to reach it is the bucket of the exact sample. */
  lemma ReachesExactBucket(samples: seq<real>, fraction: real, x: real)
    requires 0.0 < fraction <= 1.0 && samples != []
    requires KthSmallest(samples, Rank(fraction, |samples|), x)
    ensures FirstReaching(samples, fraction * |samples| as real, 0) == Index(x)
  {
    RankBounds(fraction, |samples|);
    var k := Rank(fraction, |samples|);
    forall y | y in samples && y <= x ensures Index(y) <= Index(x) { IndexMonotone(y, x); }
    CountMonotone(samples, y => y <= x, y => Index(y) <= Index(x));
    assert UpToBucket(samples, Index(x)) >= k;
    forall j | 0 <= j < Index(x) ensures UpToBucket(samples, j) < k {
      forall y | y in samples && Index(y) <= j ensures y < x {
        if x <= y { IndexMonotone(x, y); }
      }
      CountMonotone(samples, y => Index(y) <= j, y => y < x);
    }
  }

  /** Every exact order statistic of the rank lies in v's bucket: v is below it by less than 5%
      exactly when it is a latency the buckets can tell apart. */
  ghost predicate WithinFivePercent(samples: seq<real>, fraction: real, v: real) {
    forall x :: KthSmallest(samples, Rank(fraction, |samples|), x) ==>
      v == ValueAt(Index(x)) && (v <= x < GROWTH * v <==> InRange(x))
  }

  lemma FirstIsWithin(samples: seq<real>, fraction: real)
    requires 0.0 < fraction <= 1.0 && samples != []
    ensures WithinFivePercent(samples, fraction, PercentileOf(samples, fraction))
  {
    hide ValueAt, Index, InRange, FirstReaching, KthSmallest, Rank;
    forall x | KthSmallest(samples, Rank(fraction, |samples|), x)
      ensures FirstReaching(samples, fraction * |samples| as real, 0) == Index(x)
      ensures ValueAt(Index(x)) <= x < GROWTH * ValueAt(Index(x)) <==> InRange(x)
    {
      ReachesExactBucket(samples, fraction, x);
      BucketBounds(x);
    }
  }

  lemma FirstReachingMonotone(samples: seq<real>, target: real, target': real)
    requires target <= target'
    ensures FirstReaching(samples, target, 0) <= FirstReaching(samples, target', 0)
  {
    var r, r' := FirstReaching(samples, target, 0), FirstReaching(samples, target', 0);
    assert r' < r ==> (UpToBucket(samples, r') as real) < target;
  }

  /** Percentiles grow with the fraction. */
  lemma PercentilesMonotone(samples: seq<real>, f: real, f': real)
    requires samples != [] && 0.0 < f <= f' <= 1.0
    ensures PercentileOf(samples, f) <= PercentileOf(samples, f')
  {
    hide ValueAt, FirstReaching;
    assert f * |samples| as real <= f' * |samples| as real;
    FirstReachingMonotone(samples, f * |samples| as real, f' * |samples| as real);
    EdgesOrdered(FirstReaching(samples, f * |samples| as real, 0), FirstReaching(samples, f' * |samples| as real, 0));
  }

  lemma FirstIs(samples: seq<real>, target: real, index: nat)
    requires index <= BUCKETS
    requires index < BUCKETS ==> UpToBucket(samples, index) as real >= target
    requires forall j :: 0 <= j < index ==> (UpToBucket(samples, j) as real) < target
    ensures FirstReaching(samples, target, 0) == index
  {
    hide UpToBucket;
    var r := FirstReaching(samples, target, 0);
    assert index < r ==> (UpToBucket(samples, index) as real) < target;
  }

  /** A target beyond the number of samples is never reached; any other is. */
  lemma TargetReached(samples: seq<real>, fraction: real, target: real)
    requires samples != [] && target == fraction * |samples| as real
    ensures FirstReaching(samples, target, 0) == BUCKETS <==> fraction > 1.0
    ensures ValueAt(FirstReaching(samples, target, 0)) == PercentileOf(samples, fraction)
  {
    hide ValueAt, UpToBucket, FirstReaching;
    TargetBounds(fraction, |samples|);
    var r := FirstReaching(samples, target, 0);
    UpToBucketBounds(samples, r);
    UpToBucketBounds(samples, BUCKETS - 1);
  }

  lemma RecordedCounts(samples: seq<real>, ms: real)
    ensures SumOf(samples + [ms]) == SumOf(samples) + ms
    ensures forall i: nat :: InBucket(samples + [ms], i) == InBucket(samples, i) + (if Index(ms) == i then 1 else 0)
  {
    hide Index;
    assert (samples + [ms])[..|samples|] == samples;
  }

  // ----- The histogram as the source updates it -----

  class Latencies {
    const buckets: array<nat>
    var count: nat
    var total: real
    var low: real    // meaningful once a sample is recorded
    var high: real
    ghost var samples: seq<real>

    ghost predicate Valid() reads this, buckets {
      && buckets.Length == BUCKETS
      && count == |samples|
      && (forall i :: 0 <= i < BUCKETS ==> buckets[i] == InBucket(samples, i))
      && total == SumOf(samples)
      && (samples != [] ==> low in samples) && (high == 0.0 || high in samples) && high >= 0.0
      && (forall x :: x in samples ==> low <= x <= high)
    }

    constructor ()
      ensures Valid() && fresh(buckets) && samples == []
    {
      buckets := new nat[BUCKETS](_ => 0);
      count, total, low, high, samples := 0, 0.0, 0.0, 0.0, [];
    }

    method Record(ms: real)
      requires Valid()
      modifies this, buckets
      ensures Valid() && samples == old(samples) + [ms]
    {
      hide Index, InBucket, SumOf;
      low := if count == 0 || ms < low then ms else low;
      count, total := count + 1, total + ms;
      high := if ms > high then ms else high;
      AtFloor(ms);
      var index := if ms <= FLOOR then 0 else Index(ms);
      buckets[index] := buckets[index] + 1;
      RecordedCounts(samples, ms);
      samples := samples + [ms];
      assert forall x :: x in samples <==> x in old(samples) || x == ms;
      assert high == ms || high in old(samples) || high == 0.0;
    }

    /** The bucket at which the samples seen first reach the target, or BUCKETS. */
    method FirstBucket(target: real) returns (r: nat)
      requires Valid()
      ensures r == FirstReaching(samples, target, 0)
    {
      hide Index, UpToBucket, InBucket, SumOf, FirstReaching;
      var seen := 0;
      UpToBucketBounds(samples, -1);
      for index := 0 to BUCKETS
        invariant seen == UpToBucket(samples, index - 1)
        invariant forall j :: 0 <= j < index ==> (UpToBucket(samples, j) as real) < target
      {
        UpToBucketStep(samples, index);
        seen := seen + buckets[index];
        if seen as real >= target {
          FirstIs(samples, target, index);
          return index;
        }
      }
      FirstIs(samples, target, BUCKETS);
      r := BUCKETS;
    }

    /** The value before rounding. For a fraction in (0, 1] it is the lower edge of the bucket of
        the exact order statistic, hence within 5% of it exactly when that sample is in range. */
    method Percentile(fraction: real) returns (v: real)
      requires Valid()
      ensures samples == [] ==> v == 0.0
      ensures samples != [] && fraction <= 1.0 ==> v == PercentileOf(samples, fraction)
      ensures samples != [] && 0.0 < fraction <= 1.0 ==> WithinFivePercent(samples, fraction, v)
      ensures samples != [] && fraction > 1.0 ==> v == high
    {
      hide ValueAt, WithinFivePercent, FirstReaching, PercentileOf, InBucket, SumOf;
      if count == 0 {
        return 0.0;
      }
      var target := fraction * count as real;
      var index := FirstBucket(target);
      TargetReached(samples, fraction, target);
      if 0.0 < fraction <= 1.0 { FirstIsWithin(samples, fraction); }
      v := if index < BUCKETS then ValueAt(index) else high;
    }
  }

  ghost function SumOf(samples: seq<real>): real {
    if samples == [] then 0.0 else SumOf(samples[..|samples|-1]) + samples[|samples|-1]
  }
}
