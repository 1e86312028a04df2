/** Operation counters, the cumulative latency histogram and its percentile estimator. Counters are
    unbounded, and floating-point fractions exact. */
module Metrics {
  import opened Words

  const BOUNDS: seq<nat> := [1_000, 10_000, 100_000, 1_000_000, 10_000_000, 100_000_000, 1_000_000_000, 10_000_000_000]

  const BUCKETS: nat := 8

  /** How many latencies are at most x. */
  function CountLe(h: seq<nat>, x: int): nat {
    if h == [] then 0 else CountLe(h[..|h| - 1], x) + if h[|h| - 1] <= x then 1 else 0
  }

  /** How many of the latencies are at most x. */
  lemma {:induction false} CountLeCounts(h: seq<nat>, x: int)
    ensures CountLe(h, x) == |set i | 0 <= i < |h| && h[i] <= x|
    decreases |h|
  {
    if h != [] {
      CountLeCounts(h[..|h| - 1], x);
      OneMore(h, x);
    }
  }

  lemma OneMore(h: seq<nat>, x: int)
    requires h != []
    ensures
      var n := |h| - 1;
      var before := set i | 0 <= i < n && h[..n][i] <= x;
      n !in before && (set i | 0 <= i < |h| && h[i] <= x) == before + if h[n] <= x then {n} else {}
  {
  }

  lemma CountAppend(h: seq<nat>, l: nat, x: int)
    ensures CountLe(h + [l], x) == CountLe(h, x) + if l <= x then 1 else 0
    ensures Sum(h + [l]) == Sum(h) + l
  {
    assert (h + [l])[..|h|] == h;
  }

  lemma {:induction false} CountMono(h: seq<nat>, x: int, y: int)
    requires x <= y
    ensures CountLe(h, x) <= CountLe(h, y) <= |h|
    decreases |h|
  {
    if h == [] {
    } else {
      CountMono(h[..|h| - 1], x, y);
    }
  }

  // ---- The estimator ----

  /** The first bucket whose cumulative count reaches the target, or BUCKETS. */
  function FirstReaching(counts: seq<nat>, target: nat, from: nat): (i: nat)
    requires |counts| == BUCKETS && from <= BUCKETS
    ensures from <= i <= BUCKETS
    ensures forall j :: from <= j < i ==> counts[j] < target
    ensures i < BUCKETS ==> counts[i] >= target
    decreases BUCKETS - from
  {
    if from == BUCKETS || counts[from] >= target then from else FirstReaching(counts, target, from + 1)
  }

  /** Linear interpolation inside a bucket. */
  function Interpolate(target: nat, prevCount: nat, count: nat, low: nat, high: nat): nat
    requires prevCount <= target <= count && prevCount < count && low <= high
  {
    low + Share(target - prevCount, count - prevCount, high - low)
  }

  /** The fraction part/whole of a width, rounded down. */
  function Share(part: nat, whole: nat, width: nat): nat
    requires whole > 0
  {
    part * width / whole
  }

  /** The lower bound of bucket i. */
  function Lower(i: nat): (low: nat)
    requires i < BUCKETS
    ensures low <= BOUNDS[i]
  {
    if i > 0 then BOUNDS[i - 1] else 0
  }

  /** The estimate inside a bucket: its upper bound when the counts say nothing. */
  function Within(target: nat, prevCount: nat, count: nat, low: nat, high: nat): nat
    requires prevCount <= target <= count && low <= high
  {
    if count == prevCount then high else Interpolate(target, prevCount, count, low, high)
  }

  function Estimate(counts: seq<nat>, target: nat): nat
    requires |counts| == BUCKETS
  {
    var i := FirstReaching(counts, target, 0);
    if i == BUCKETS then BOUNDS[BUCKETS - 1]
    else Within(target, if i > 0 then counts[i - 1] else 0, counts[i], Lower(i), BOUNDS[i])
  }

  lemma InterpolateBounds(target: nat, prevCount: nat, count: nat, low: nat, high: nat)
    requires prevCount <= target <= count && prevCount < count && low <= high
    ensures low <= Interpolate(target, prevCount, count, low, high) <= high
  {
    DivBetween(target - prevCount, count - prevCount, high - low);
  }

  lemma DivBetween(t: nat, d: nat, w: nat)
    requires t <= d && d > 0
    ensures 0 <= Share(t, d, w) <= w
  {
    MulMono(t, d, w);
    DivMono(t * w, d * w, d);
    DivModUnique(d * w, d, w, 0);
    DivMono(0, t * w, d);
    DivModUnique(0, d, 0, 0);
  }

  lemma DivMono(a: nat, b: nat, d: nat)
    requires a <= b && d > 0
    ensures a / d <= b / d
  {
    assert a == d * (a / d) + a % d && b == d * (b / d) + b % d;
    if a / d > b / d {
      MulMono(b / d + 1, a / d, d);
    }
  }

  lemma InterpolateMono(t1: nat, t2: nat, prevCount: nat, count: nat, low: nat, high: nat)
    requires prevCount <= t1 <= t2 <= count && prevCount < count && low <= high
    ensures Interpolate(t1, prevCount, count, low, high) <= Interpolate(t2, prevCount, count, low, high)
  {
    ShareMono(t1 - prevCount, t2 - prevCount, count - prevCount, high - low);
  }

  lemma ShareMono(p1: nat, p2: nat, whole: nat, width: nat)
    requires p1 <= p2 && whole > 0
    ensures Share(p1, whole, width) <= Share(p2, whole, width)
  {
    MulMono(p1, p2, width);
    DivMono(p1 * width, p2 * width, whole);
  }

  /** The estimate lies within the bucket the target falls in; the subtractions do not underflow. */
  lemma EstimateInBucket(counts: seq<nat>, target: nat)
    requires |counts| == BUCKETS
    ensures
      var i := FirstReaching(counts, target, 0);
      if i == BUCKETS then Estimate(counts, target) == BOUNDS[BUCKETS - 1]
      else
        && (i > 0 ==> counts[i - 1] < target <= counts[i])
        && (if i > 0 then BOUNDS[i - 1] else 0) <= Estimate(counts, target) <= BOUNDS[i]
  {
    var i := FirstReaching(counts, target, 0);
    if i < BUCKETS {
      var prevCount := if i > 0 then counts[i - 1] else 0;
      if counts[i] != prevCount {
        InterpolateBounds(target, prevCount, counts[i], if i > 0 then BOUNDS[i - 1] else 0, BOUNDS[i]);
      }
    }
  }

  /** Inside its bucket the estimate is the point as far between the bounds as the target is between the
      counts, rounded down. */
  lemma InterpolatesLinearly(counts: seq<nat>, target: nat)
    requires |counts| == BUCKETS && FirstReaching(counts, target, 0) < BUCKETS
    ensures
      var i := FirstReaching(counts, target, 0);
      var before := if i > 0 then counts[i - 1] else 0;
      var above := Estimate(counts, target) - Lower(i);
      before < counts[i] ==>
        above * (counts[i] - before) <= (target - before) * (BOUNDS[i] - Lower(i)) < (above + 1) * (counts[i] - before)
  {
    var i := FirstReaching(counts, target, 0);
    var before := if i > 0 then counts[i - 1] else 0;
    if before < counts[i] {
      RoundsDown((target - before) * (BOUNDS[i] - Lower(i)), counts[i] - before);
    }
  }

  lemma RoundsDown(x: int, d: nat)
    requires d > 0
    ensures x / d * d <= x < (x / d + 1) * d
  {
    assert x == d * (x / d) + x % d;
    assert (x / d + 1) * d == x / d * d + d;
  }

  /** The bounds are the decades from one microsecond to ten seconds, in nanoseconds. */
  lemma BoundsAreDecades(i: nat)
    requires i < BUCKETS
    ensures BUCKETS == 8 && BOUNDS[0] == 1_000 && BOUNDS[7] == 10_000_000_000
    ensures i > 0 ==> BOUNDS[i] == 10 * BOUNDS[i - 1]
  {
  }

  lemma {:induction false} FirstReachingMono(counts: seq<nat>, t1: nat, t2: nat, from: nat)
    requires |counts| == BUCKETS && from <= BUCKETS && t1 <= t2
    ensures FirstReaching(counts, t1, from) <= FirstReaching(counts, t2, from)
    decreases BUCKETS - from
  {
    if from == BUCKETS || counts[from] >= t1 {
    } else {
      FirstReachingMono(counts, t1, t2, from + 1);
    }
  }

  lemma BoundsAscend(i: nat, j: nat)
    requires i <= j < BUCKETS
    ensures BOUNDS[i] <= BOUNDS[j]
  {
  }

  lemma WithinMono(t1: nat, t2: nat, prevCount: nat, count: nat, low: nat, high: nat)
    requires prevCount <= t1 <= t2 <= count && low <= high
    ensures Within(t1, prevCount, count, low, high) <= Within(t2, prevCount, count, low, high)
  {
    if count != prevCount {
      InterpolateMono(t1, t2, prevCount, count, low, high);
    }
  }

  lemma SameBucketMono(counts: seq<nat>, t1: nat, t2: nat, i: nat)
    requires |counts| == BUCKETS && t1 <= t2
    requires FirstReaching(counts, t1, 0) == FirstReaching(counts, t2, 0) == i < BUCKETS
    ensures Estimate(counts, t1) <= Estimate(counts, t2)
  {
    WithinMono(t1, t2, if i > 0 then counts[i - 1] else 0, counts[i], Lower(i), BOUNDS[i]);
  }

  lemma LaterBucketMono(counts: seq<nat>, t1: nat, t2: nat, i: nat, j: nat)
    requires |counts| == BUCKETS && FirstReaching(counts, t1, 0) == i && FirstReaching(counts, t2, 0) == j && i < j
    ensures Estimate(counts, t1) <= Estimate(counts, t2)
  {
    EstimateInBucket(counts, t1);
    EstimateInBucket(counts, t2);
    BoundsAscend(i, if j == BUCKETS then BUCKETS - 1 else j - 1);
  }

  /** A higher target never gives a lower estimate. */
  lemma EstimateMono(counts: seq<nat>, t1: nat, t2: nat)
    requires |counts| == BUCKETS && t1 <= t2
    ensures Estimate(counts, t1) <= Estimate(counts, t2)
  {
    var i, j := FirstReaching(counts, t1, 0), FirstReaching(counts, t2, 0);
    FirstReachingMono(counts, t1, t2, 0);
    if i < j {
      LaterBucketMono(counts, t1, t2, i, j);
    } else if i < BUCKETS {
      SameBucketMono(counts, t1, t2, i);
    }
  }

  lemma EstimateAtMostLast(counts: seq<nat>, target: nat)
    requires |counts| == BUCKETS
    ensures Estimate(counts, target) <= BOUNDS[BUCKETS - 1]
  {
    EstimateInBucket(counts, target);
    var i := FirstReaching(counts, target, 0);
    if i < BUCKETS {
      BoundsAscend(i, BUCKETS - 1);
    }
  }

  lemma TargetsAscend(total: nat)
    ensures Target(total, 50, 100) <= Target(total, 99, 100) <= Target(total, 999, 1000)
  {
  }

  // ---- Against the true order statistic ----

  /** x is the k-th smallest latency of h, counting from 1. */
  ghost predicate KthSmallest(h: seq<nat>, k: nat, x: nat) {
    x in h && CountLe(h, x - 1) < k <= CountLe(h, x)
  }

  lemma {:induction false} AbsentSameCount(h: seq<nat>, x: nat)
    requires x !in h
    ensures CountLe(h, x - 1) == CountLe(h, x)
    decreases |h|
  {
    if h == [] {
    } else {
      AbsentSameCount(h[..|h| - 1], x);
      assert h[|h| - 1] in h;
    }
  }

  lemma {:induction false} LeastWithCount(h: seq<nat>, k: nat, hi: nat) returns (x: nat)
    requires 1 <= k <= CountLe(h, hi)
    ensures x <= hi && KthSmallest(h, k, x)
    decreases hi
  {
    x := hi;
    if CountLe(h, hi - 1) >= k {
      if hi == 0 {
        NoneBelowZero(h);
      } else {
        x := LeastWithCount(h, k, hi - 1);
      }
    } else if hi !in h {
      AbsentSameCount(h, hi);
    }
  }

  lemma {:induction false} NoneBelowZero(h: seq<nat>)
    ensures CountLe(h, -1) == 0
    decreases |h|
  {
    if h == [] {
    } else {
      NoneBelowZero(h[..|h| - 1]);
    }
  }

  lemma {:induction false} AllWithin(h: seq<nat>) returns (hi: nat)
    ensures CountLe(h, hi) == |h|
    decreases |h|
  {
    hi := 0;
    if h == [] {
    } else {
      var n := |h| - 1;
      var below := AllWithin(h[..n]);
      hi := if below < h[n] then h[n] else below;
      CountMono(h[..n], below, hi);
    }
  }

  /** Every rank has an order statistic. */
  lemma KthExists(h: seq<nat>, k: nat)
    requires 1 <= k <= |h|
    ensures exists x: nat :: KthSmallest(h, k, x)
  {
    var hi := AllWithin(h);
    var x := LeastWithCount(h, k, hi);
  }

  /** For a target of at least one, the estimate and the true order statistic lie in the same bucket. */
  lemma EstimateBracketsOrderStatistic(h: seq<nat>, counts: seq<nat>, target: nat, x: nat)
    requires |counts| == BUCKETS && forall i :: 0 <= i < BUCKETS ==> counts[i] == CountLe(h, BOUNDS[i])
    requires target >= 1 && KthSmallest(h, target, x)
    ensures
      var i := FirstReaching(counts, target, 0);
      if i == BUCKETS then x > BOUNDS[BUCKETS - 1] == Estimate(counts, target)
      else
        var low := if i > 0 then BOUNDS[i - 1] else 0;
        && low <= Estimate(counts, target) <= BOUNDS[i]
        && low <= x <= BOUNDS[i] && (i > 0 ==> low < x)
  {
    var i := FirstReaching(counts, target, 0);
    EstimateInBucket(counts, target);
    if i > 0 && x <= BOUNDS[i - 1] {
      CountMono(h, x, BOUNDS[i - 1]);
    }
    if i < BUCKETS && x > BOUNDS[i] {
      CountMono(h, BOUNDS[i], x - 1);
    }
  }

  /** A target of zero, which a single operation gives for every percentile below one, says nothing
      about the history: the estimate is at most the first bound. */
  lemma ZeroTargetIsBlind(counts: seq<nat>)
    requires |counts| == BUCKETS
    ensures Estimate(counts, 0) == if counts[0] == 0 then BOUNDS[0] else 0
  {
  }

  /** One operation of five seconds: the 99th percentile is reported as one microsecond. */
  lemma SingleSlowOperation(counts: seq<nat>)
    requires |counts| == BUCKETS && forall i :: 0 <= i < BUCKETS ==> counts[i] == CountLe([5_000_000_000], BOUNDS[i])
    ensures Target(1, 99, 100) == 0 && Estimate(counts, Target(1, 99, 100)) == 1_000
    ensures KthSmallest([5_000_000_000], 1, 5_000_000_000)
  {
    CountAppend([], 5_000_000_000, BOUNDS[0]);
    CountAppend([], 5_000_000_000, 5_000_000_000);
    CountAppend([], 5_000_000_000, 4_999_999_999);
    assert [] + [5_000_000_000] == [5_000_000_000];
  }

  /** uint64(totalOps * percentile). */
  function Target(total: nat, num: nat, den: nat): nat
    requires den > 0
  {
    total * num / den
  }

  /** The target is at least one exactly when there are enough operations. */
  lemma TargetPositive(total: nat, num: nat, den: nat)
    requires den > 0
    ensures Target(total, num, den) >= 1 <==> total * num >= den
  {
    var x := total * num;
    if x >= den {
      DivMono(den, x, den);
      DivModUnique(den, den, 1, 0);
    } else {
      DivModUnique(x, den, 0, x);
    }
  }

  // ---- When the estimate is sound ----

  /** The histogram of a history. */
  function Counts(h: seq<nat>): (c: seq<nat>)
    ensures |c| == BUCKETS
    ensures forall i :: 0 <= i < BUCKETS ==> c[i] == CountLe(h, BOUNDS[i])
  {
    seq(BUCKETS, i requires 0 <= i < BUCKETS => CountLe(h, BOUNDS[i]))
  }

  /** The latency x is counted in bucket i, and the estimate lies between its bounds; the last bucket is
      open-ended, and its estimate is the last bound. */
  predicate InBucket(i: nat, estimate: nat, x: nat) {
    if i < BUCKETS then Lower(i) <= estimate <= BOUNDS[i] && Lower(i) <= x <= BOUNDS[i] && (i > 0 ==> Lower(i) < x)
    else estimate == BOUNDS[BUCKETS - 1] < x
  }

  ghost predicate ShareBucket(estimate: nat, x: nat) {
    exists i: nat :: InBucket(i, estimate, x)
  }

  /** The rank a percentile stands for: the first when the target rounds down to none. */
  function Rank(total: nat, num: nat, den: nat): nat
    requires den > 0
  {
    if Target(total, num, den) > 0 then Target(total, num, den) else 1
  }

  /** For every history of that many operations, the estimate for num/den shares a bucket with the
      order statistic it stands for. */
  ghost predicate Sound(total: nat, num: nat, den: nat)
    requires den > 0
  {
    forall h: seq<nat>, x: nat :: |h| == total && KthSmallest(h, Rank(total, num, den), x) ==>
      ShareBucket(Estimate(Counts(h), Target(total, num, den)), x)
  }

  /** A history of one latency repeated. */
  function Repeated(l: nat, n: nat): (h: seq<nat>)
    ensures |h| == n
  {
    if n == 0 then [] else Repeated(l, n - 1) + [l]
  }

  lemma {:induction false} RepeatedCounts(l: nat, n: nat, x: int)
    ensures CountLe(Repeated(l, n), x) == if l <= x then n else 0
    ensures n > 0 ==> l in Repeated(l, n)
    decreases n
  {
    if n == 0 {
    } else {
      var before := Repeated(l, n - 1);
      RepeatedCounts(l, n - 1, x);
      CountAppend(before, l, x);
      assert Repeated(l, n) == before + [l];
      assert (before + [l])[n - 1] == l;
    }
  }

  /** Five-second operations, however many: a target of none reports the first bound. */
  lemma SlowIsUnsound(total: nat)
    requires total > 0
    ensures
      var h := Repeated(5_000_000_000, total);
      && KthSmallest(h, 1, 5_000_000_000)
      && !ShareBucket(Estimate(Counts(h), 0), 5_000_000_000)
  {
    var h := Repeated(5_000_000_000, total);
    RepeatedCounts(5_000_000_000, total, BOUNDS[0]);
    RepeatedCounts(5_000_000_000, total, 4_999_999_999);
    RepeatedCounts(5_000_000_000, total, 5_000_000_000);
    ZeroTargetIsBlind(Counts(h));
  }

  /** The estimate is sound for histories of a given length exactly when operations times percentile
      is at least one. */
  lemma SoundExactlyWhen(total: nat, num: nat, den: nat)
    requires den > 0 && total > 0
    ensures Sound(total, num, den) <==> total * num >= den
  {
    var target := Target(total, num, den);
    TargetPositive(total, num, den);
    if target >= 1 {
      forall h: seq<nat>, x: nat | |h| == total && KthSmallest(h, Rank(total, num, den), x)
        ensures ShareBucket(Estimate(Counts(h), target), x)
      {
        EstimateBracketsOrderStatistic(h, Counts(h), target, x);
        assert InBucket(FirstReaching(Counts(h), target, 0), Estimate(Counts(h), target), x);
      }
    } else {
      SlowIsUnsound(total);
      assert KthSmallest(Repeated(5_000_000_000, total), Rank(total, num, den), 5_000_000_000);
    }
  }

  /** P50 <= P99 <= P999, for any counts. */
  lemma PercentilesAscend(counts: seq<nat>, total: nat)
    requires |counts| == BUCKETS
    ensures Estimate(counts, Target(total, 50, 100)) <= Estimate(counts, Target(total, 99, 100))
    ensures Estimate(counts, Target(total, 99, 100)) <= Estimate(counts, Target(total, 999, 1000))
    ensures Estimate(counts, Target(total, 999, 1000)) <= BOUNDS[BUCKETS - 1]
  {
    TargetsAscend(total);
    EstimateMono(counts, Target(total, 50, 100), Target(total, 99, 100));
    EstimateMono(counts, Target(total, 99, 100), Target(total, 999, 1000));
    EstimateAtMostLast(counts, Target(total, 999, 1000));
  }

  class Metrics {
    var readOps: nat
    var writeOps: nat
    var discardOps: nat
    var flushOps: nat
    var readBytes: nat
    var writeBytes: nat
    var discardBytes: nat
    var readErrors: nat
    var writeErrors: nat
    var discardErrors: nat
    var flushErrors: nat
    var totalLatencyNs: nat
    var opCount: nat
    const buckets: array<nat>

    ghost var history: seq<nat>   // the latencies recorded

    /** The histogram is cumulative and exact, and every operation is counted under one kind. */
    ghost predicate Valid()
      reads this, buckets
    {
      && buckets.Length == BUCKETS
      && opCount == |history| == readOps + writeOps + discardOps + flushOps
      && totalLatencyNs == Sum(history)
      && (forall i :: 0 <= i < BUCKETS ==> buckets[i] == CountLe(history, BOUNDS[i]))
      && readErrors <= readOps && writeErrors <= writeOps && discardErrors <= discardOps && flushErrors <= flushOps
    }

    constructor ()
      ensures Valid() && history == [] && fresh(buckets)
    {
      readOps, writeOps, discardOps, flushOps := 0, 0, 0, 0;
      readBytes, writeBytes, discardBytes := 0, 0, 0;
      readErrors, writeErrors, discardErrors, flushErrors := 0, 0, 0, 0;
      totalLatencyNs, opCount, history := 0, 0, [];
      buckets := new nat[BUCKETS](_ => 0);
    }

    /** recordLatency. */
    method RecordLatency(l: nat)
      requires buckets.Length == BUCKETS
      requires opCount == |history| && totalLatencyNs == Sum(history)
      requires forall i :: 0 <= i < BUCKETS ==> buckets[i] == CountLe(history, BOUNDS[i])
      modifies this`totalLatencyNs, this`opCount, this`history, buckets
      ensures history == old(history) + [l] && opCount == |history| && totalLatencyNs == Sum(history)
      ensures forall i :: 0 <= i < BUCKETS ==> buckets[i] == CountLe(history, BOUNDS[i])
    {
      totalLatencyNs := totalLatencyNs + l;
      opCount := opCount + 1;
      CountAppend(history, l, 0);
      for i := 0 to BUCKETS
        invariant totalLatencyNs == Sum(history + [l]) && opCount == |history| + 1 && history == old(history)
        invariant forall j :: 0 <= j < i ==> buckets[j] == CountLe(history + [l], BOUNDS[j])
        invariant forall j :: i <= j < BUCKETS ==> buckets[j] == CountLe(history, BOUNDS[j])
      {
        CountAppend(history, l, BOUNDS[i]);
        if l <= BOUNDS[i] {
          buckets[i] := buckets[i] + 1;
        }
      }
      history := history + [l];
    }

    method RecordRead(bytes: nat, l: nat, success: bool)
      requires Valid()
      modifies this, buckets
      ensures Valid() && history == old(history) + [l]
      ensures readOps == old(readOps) + 1 && readBytes == old(readBytes) + (if success then bytes else 0)
      ensures readErrors == old(readErrors) + (if success then 0 else 1)
      ensures unchanged(`writeOps, `discardOps, `flushOps, `writeBytes, `discardBytes)
      ensures unchanged(`writeErrors, `discardErrors, `flushErrors)
    {
      readOps := readOps + 1;
      if success { readBytes := readBytes + bytes; } else { readErrors := readErrors + 1; }
      RecordLatency(l);
    }

    method RecordWrite(bytes: nat, l: nat, success: bool)
      requires Valid()
      modifies this, buckets
      ensures Valid() && history == old(history) + [l]
      ensures writeOps == old(writeOps) + 1 && writeBytes == old(writeBytes) + (if success then bytes else 0)
      ensures writeErrors == old(writeErrors) + (if success then 0 else 1)
      ensures unchanged(`readOps, `discardOps, `flushOps, `readBytes, `discardBytes)
      ensures unchanged(`readErrors, `discardErrors, `flushErrors)
    {
      writeOps := writeOps + 1;
      if success { writeBytes := writeBytes + bytes; } else { writeErrors := writeErrors + 1; }
      RecordLatency(l);
    }

    method RecordDiscard(bytes: nat, l: nat, success: bool)
      requires Valid()
      modifies this, buckets
      ensures Valid() && history == old(history) + [l]
      ensures discardOps == old(discardOps) + 1 && discardBytes == old(discardBytes) + (if success then bytes else 0)
      ensures discardErrors == old(discardErrors) + (if success then 0 else 1)
      ensures unchanged(`readOps, `writeOps, `flushOps, `readBytes, `writeBytes)
      ensures unchanged(`readErrors, `writeErrors, `flushErrors)
    {
      discardOps := discardOps + 1;
      if success { discardBytes := discardBytes + bytes; } else { discardErrors := discardErrors + 1; }
      RecordLatency(l);
    }

    method RecordFlush(l: nat, success: bool)
      requires Valid()
      modifies this, buckets
      ensures Valid() && history == old(history) + [l]
      ensures flushOps == old(flushOps) + 1 && flushErrors == old(flushErrors) + (if success then 0 else 1)
      ensures unchanged(`readOps, `writeOps, `discardOps, `readBytes, `writeBytes, `discardBytes)
      ensures unchanged(`readErrors, `writeErrors, `discardErrors)
    {
      flushOps := flushOps + 1;
      if !success { flushErrors := flushErrors + 1; }
      RecordLatency(l);
    }

    /** calculatePercentile, for the percentile num/den. When there are enough operations the estimate
        is in the bucket of the true order statistic. */
    method CalculatePercentile(num: nat, den: nat) returns (r: nat)
      requires Valid() && den > 0
      ensures opCount == 0 ==> r == 0
      ensures opCount > 0 ==> r == Estimate(buckets[..], Target(opCount, num, den))
      ensures opCount > 0 && Target(opCount, num, den) >= 1 ==>
        forall x: nat :: KthSmallest(history, Target(opCount, num, den), x) ==>
          var i := FirstReaching(buckets[..], Target(opCount, num, den), 0);
          if i == BUCKETS then x > BOUNDS[BUCKETS - 1] == r
          else Lower(i) <= r <= BOUNDS[i] && Lower(i) <= x <= BOUNDS[i]
    {
      if opCount == 0 {
        return 0;
      }
      var target := Target(opCount, num, den);
      ghost var counts := buckets[..];
      forall x: nat | target >= 1 && KthSmallest(history, target, x)
        ensures
          var i := FirstReaching(counts, target, 0);
          if i == BUCKETS then x > BOUNDS[BUCKETS - 1] == Estimate(counts, target)
          else
            Lower(i) <= Estimate(counts, target) <= BOUNDS[i] && Lower(i) <= x <= BOUNDS[i]
      {
        EstimateBracketsOrderStatistic(history, counts, target, x);
      }
      r := Search(target);
    }

    method Search(target: nat) returns (r: nat)
      requires buckets.Length == BUCKETS
      ensures r == Estimate(buckets[..], target)
    {
      ghost var counts := buckets[..];
      var prevBucket := 0;
      var i := 0;
      while i < BUCKETS
        invariant 0 <= i <= BUCKETS
        invariant FirstReaching(counts, target, i) == FirstReaching(counts, target, 0)
        invariant prevBucket == if i > 0 then BOUNDS[i - 1] else 0
      {
        var bucketCount := buckets[i];
        if bucketCount >= target {
          assert FirstReaching(counts, target, i) == i;
          assert prevBucket == Lower(i);
          var prevCount := if i > 0 then buckets[i - 1] else 0;
          if bucketCount == prevCount {
            return BOUNDS[i];
          }
          return Interpolate(target, prevCount, bucketCount, prevBucket, BOUNDS[i]);
        }
        prevBucket := BOUNDS[i];
        i := i + 1;
      }
      return BOUNDS[BUCKETS - 1];
    }

    /** The percentiles of Snapshot: each shares a bucket with its order statistic when there are enough
        operations, and they are in order. */
    method Percentiles() returns (p50: nat, p99: nat, p999: nat)
      requires Valid()
      ensures opCount == 0 ==> p50 == p99 == p999 == 0
      ensures opCount > 0 ==> Stands(history, p50, 50, 100) && Stands(history, p99, 99, 100)
      ensures opCount > 0 ==> Stands(history, p999, 999, 1000)
      ensures p50 <= p99 <= p999 <= BOUNDS[BUCKETS - 1]
    {
      p50, p99, p999 := 0, 0, 0;
      if opCount > 0 {
        p50 := CalculatePercentile(50, 100);
        p99 := CalculatePercentile(99, 100);
        p999 := CalculatePercentile(999, 1000);
        PercentilesAscend(buckets[..], opCount);
        EstimateStands(history, buckets[..], 50, 100);
        EstimateStands(history, buckets[..], 99, 100);
        EstimateStands(history, buckets[..], 999, 1000);
      }
    }
  }

  /** A reported percentile is the estimate of the history's own counts, and shares a bucket with the order
      statistic when operations times percentile is at least one. */
  ghost predicate Stands(h: seq<nat>, r: nat, num: nat, den: nat)
    requires den > 0
  {
    && r == Estimate(Counts(h), |h| * num / den)
    && (|h| * num >= den ==> forall x: nat :: KthSmallest(h, |h| * num / den, x) ==> ShareBucket(r, x))
  }

  lemma EstimateStands(h: seq<nat>, counts: seq<nat>, num: nat, den: nat)
    requires den > 0 && h != [] && |counts| == BUCKETS
    requires forall i :: 0 <= i < BUCKETS ==> counts[i] == CountLe(h, BOUNDS[i])
    ensures Stands(h, Estimate(counts, Target(|h|, num, den)), num, den)
  {
    assert counts == Counts(h);
    var target := Target(|h|, num, den);
    TargetPositive(|h|, num, den);
    if target >= 1 {
      forall x: nat | KthSmallest(h, target, x)
        ensures ShareBucket(Estimate(counts, target), x)
      {
        StatisticShares(h, counts, target, x);
      }
    }
  }

  lemma StatisticShares(h: seq<nat>, counts: seq<nat>, target: nat, x: nat)
    requires |counts| == BUCKETS && target >= 1 && KthSmallest(h, target, x)
    requires forall i :: 0 <= i < BUCKETS ==> counts[i] == CountLe(h, BOUNDS[i])
    ensures ShareBucket(Estimate(counts, target), x)
  {
    EstimateBracketsOrderStatistic(h, counts, target, x);
    assert InBucket(FirstReaching(counts, target, 0), Estimate(counts, target), x);
  }
}
