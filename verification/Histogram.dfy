/** The power-of-two latency histogram and the rank bound of its percentiles. */
module Histogram {
  import opened Bits

  const BUCKETS: nat := 64

  /** Samples below a bound. */
  function CountBelow(samples: seq<nat>, bound: nat): nat {
    if samples == [] then 0
    else CountBelow(samples[..|samples| - 1], bound) + if samples[|samples| - 1] < bound then 1 else 0
  }

  lemma {:induction false} CountGrows(samples: seq<nat>, a: nat, b: nat)
    requires a <= b
    ensures CountBelow(samples, a) <= CountBelow(samples, b) <= |samples|
  {
    if samples != [] { CountGrows(samples[..|samples| - 1], a, b); }
  }

  lemma {:induction false} CountAll(samples: seq<nat>, bound: nat)
    requires forall i | 0 <= i < |samples| :: samples[i] < bound
    ensures CountBelow(samples, bound) == |samples|
  {
    if samples != [] { CountAll(samples[..|samples| - 1], bound); }
  }

  /** v is the sample of rank `target` (counting from 0) when the samples are put in order. */
  ghost predicate IsOrderStatistic(samples: seq<nat>, target: nat, v: nat) {
    CountBelow(samples, v) <= target < CountBelow(samples, v + 1)
  }

  /** There is one for every rank below the count, and only one. */
  lemma {:induction false} OrderStatisticExists(samples: seq<nat>, target: nat, bound: nat) returns (v: nat)
    requires target < CountBelow(samples, bound)
    ensures v < bound && IsOrderStatistic(samples, target, v)
    decreases bound
  {
    if bound == 0 {
      NoneBelowZero(samples);
    }
    if CountBelow(samples, bound - 1) <= target {
      v := bound - 1;
    } else {
      v := OrderStatisticExists(samples, target, bound - 1);
    }
  }

  lemma {:induction false} NoneBelowZero(samples: seq<nat>)
    ensures CountBelow(samples, 0) == 0
  {
    if samples != [] { NoneBelowZero(samples[..|samples| - 1]); }
  }

  lemma OrderStatisticIsUnique(samples: seq<nat>, target: nat, v: nat, w: nat)
    requires IsOrderStatistic(samples, target, v) && IsOrderStatistic(samples, target, w)
    ensures v == w
  {
    if v < w { CountGrows(samples, v + 1, w); } else if w < v { CountGrows(samples, w + 1, v); }
  }

  lemma {:induction false} Pow2Grows(i: nat, j: nat)
    requires i <= j
    ensures Pow2(i) <= Pow2(j)
    decreases j
  {
    if i < j { Pow2Grows(i, j - 1); }
  }

  /** Samples that belong in bucket i: [2^i, 2^(i+1)), and 0 in the first. */
  function InBucket(samples: seq<nat>, i: nat): int {
    CountBelow(samples, Pow2(i + 1)) - if i == 0 then 0 else CountBelow(samples, Pow2(i))
  }

  predicate Belongs(ns: nat, i: nat) {
    ns < Pow2(i + 1) && (i == 0 || Pow2(i) <= ns)
  }

  /** Each sample belongs in one bucket only. */
  lemma BucketIsUnique(ns: nat, i: nat, j: nat)
    requires Belongs(ns, i) && Belongs(ns, j)
    ensures i == j
  {
    if i < j { Pow2Grows(i + 1, j); } else if j < i { Pow2Grows(j + 1, i); }
  }

  lemma RecordMovesOneBucket(samples: seq<nat>, ns: nat, b: nat, i: nat)
    requires Belongs(ns, b)
    ensures InBucket(samples + [ns], i) == InBucket(samples, i) + if i == b then 1 else 0
  {
    assert (samples + [ns])[..|samples|] == samples;
    if i != b && Belongs(ns, i) { BucketIsUnique(ns, i, b); }
    Pow2Grows(i, i + 1);
  }

  /** The position of the highest set bit, capped at the last bucket. */
  method BucketFor(ns: nat) returns (b: nat)
    requires ns < WORD
    ensures b < 64 && Belongs(ns, b)
  {
    if ns == 0 { return 0; }
    var v, bit := ns, 0;
    ghost var low: nat := 0;
    while v > 1
      invariant v >= 1 && low < Pow2(bit) && ns == v * Pow2(bit) + low
      decreases v
    {
      HalveStep(v, bit, low);
      low := low + (v % 2) * Pow2(bit);
      v, bit := v / 2, bit + 1;
    }
    if bit >= BUCKETS {
      Pow2Grows(BUCKETS, bit);
      Pow2OfWord();
    }
    b := if bit < BUCKETS - 1 then bit else BUCKETS - 1;
  }

  lemma HalveStep(v: nat, bit: nat, low: nat)
    requires low < Pow2(bit)
    ensures v * Pow2(bit) + low == (v / 2) * Pow2(bit + 1) + (low + (v % 2) * Pow2(bit))
    ensures low + (v % 2) * Pow2(bit) < Pow2(bit + 1)
  {
    var p, h, r := Pow2(bit), v / 2, v % 2;
    assert v == 2 * h + r;
    assert v * p == (2 * h) * p + r * p;
    assert (2 * h) * p == h * (2 * p);
  }

  class LatencyHistogram {
    const counts: array<nat>
    var total: nat
    var min: nat
    var max: nat
    ghost var samples: seq<nat>

    ghost predicate Valid()
      reads this, counts
    {
      && counts.Length == BUCKETS
      && total == |samples|
      && (forall i | 0 <= i < |samples| :: samples[i] < WORD)
      && (forall i | 0 <= i < BUCKETS :: counts[i] == InBucket(samples, i))
      && (forall s | s in samples :: min <= s <= max)
      && (if samples == [] then min == WORD - 1 && max == 0 else min in samples && max in samples)
    }

    constructor ()
      ensures Valid() && samples == [] && fresh(counts)
    {
      counts := new nat[BUCKETS](i => 0);
      total, min, max, samples := 0, WORD - 1, 0, [];
    }

    method Record(ns: nat)
      requires Valid() && ns < WORD
      modifies this, counts
      ensures Valid() && samples == old(samples) + [ns]
    {
      var b := BucketFor(ns);
      forall i | 0 <= i < BUCKETS
        ensures InBucket(samples + [ns], i) == InBucket(samples, i) + if i == b then 1 else 0
      {
        RecordMovesOneBucket(samples, ns, b, i);
      }
      counts[b] := counts[b] + 1;
      total := total + 1;
      if ns < min { min := ns; }
      if ns > max { max := ns; }
      samples := samples + [ns];
    }

    method Reset()
      requires counts.Length == BUCKETS
      modifies this, counts
      ensures Valid() && samples == []
    {
      forall i | 0 <= i < BUCKETS { counts[i] := 0; }
      total, min, max, samples := 0, WORD - 1, 0, [];
    }

    /**
     * The returned power of two is within a factor of two below the sample of that rank; a rank at or
     * beyond the count gives the last bucket, and an empty histogram 0.
     */
    method Percentile(target: nat) returns (p: nat)
      requires Valid()
      ensures samples == [] ==> p == 0
      ensures samples != [] && target >= |samples| ==> p == Pow2(63)
      ensures forall v: nat | v >= 1 && IsOrderStatistic(samples, target, v) && target < |samples| :: p <= v < 2 * p
      ensures IsOrderStatistic(samples, target, 0) && target < |samples| ==> p == 1
    {
      if total == 0 { return 0; }
      var cum := 0;
      for i := 0 to BUCKETS
        invariant cum == (if i == 0 then 0 else CountBelow(samples, Pow2(i))) <= target
      {
        cum := cum + counts[i];
        if cum > target {
          p := Pow2(i);
          RankInBucket(samples, target, i);
          CountGrows(samples, Pow2(i + 1), Pow2(i + 1));
          return;
        }
      }
      Pow2OfWord();
      CountAll(samples, WORD);
      p := Pow2(BUCKETS - 1);
    }
  }

  /** Where the cumulated count passes the rank, the order statistic lies. */
  lemma RankInBucket(samples: seq<nat>, target: nat, i: nat)
    requires target < CountBelow(samples, Pow2(i + 1)) && (i > 0 ==> CountBelow(samples, Pow2(i)) <= target)
    ensures forall v: nat | IsOrderStatistic(samples, target, v) :: Belongs(v, i)
    ensures IsOrderStatistic(samples, target, 0) ==> i == 0
  {
    forall v: nat | IsOrderStatistic(samples, target, v) ensures Belongs(v, i) {
      if v >= Pow2(i + 1) { CountGrows(samples, Pow2(i + 1), v); }
      if i > 0 && v < Pow2(i) { CountGrows(samples, v + 1, Pow2(i)); }
    }
  }

  lemma {:induction false} SumOfBuckets(samples: seq<nat>, n: nat)
    requires n >= 1
    ensures BucketSum(samples, n) == CountBelow(samples, Pow2(n))
  {
    if n > 1 { SumOfBuckets(samples, n - 1); }
  }

  function BucketSum(samples: seq<nat>, n: nat): int {
    if n == 0 then 0 else BucketSum(samples, n - 1) + InBucket(samples, n - 1)
  }

  /** The buckets always add up to the number of samples. */
  lemma BucketsSumToTotal(samples: seq<nat>)
    requires forall i | 0 <= i < |samples| :: samples[i] < WORD
    ensures BucketSum(samples, BUCKETS) == |samples|
  {
    SumOfBuckets(samples, BUCKETS);
    Pow2OfWord();
    CountAll(samples, WORD);
  }
}
