/**
 The latency histogram (include/latency_histogram.hpp): bucket counts and the cumulative scan
 behind percentile, proved against exact order statistics of the recorded samples.
 */
module Histograms {
  import opened Buckets
  import opened Roundings

  function CountLess(samples: seq<nat>, x: nat): nat {
    if samples == [] then 0 else CountLess(samples[..|samples| - 1], x) + if samples[|samples| - 1] < x then 1 else 0
  }

  /** Samples whose bucket comes before the given one. */
  function CountBefore(bits: nat, octaves: nat, samples: seq<nat>, idx: nat): nat
    requires octaves >= 1
  {
    if samples == [] then 0
    else
      CountBefore(bits, octaves, samples[..|samples| - 1], idx)
      + if IndexFor(bits, octaves, samples[|samples| - 1]) < idx then 1 else 0
  }

  function CountIn(bits: nat, octaves: nat, samples: seq<nat>, idx: nat): nat
    requires octaves >= 1
  {
    if samples == [] then 0
    else
      CountIn(bits, octaves, samples[..|samples| - 1], idx)
      + if IndexFor(bits, octaves, samples[|samples| - 1]) == idx then 1 else 0
  }

  /** x is the k-th smallest sample: fewer than k samples are below it, and at least k are not above it. */
  ghost predicate KthSmallest(samples: seq<nat>, k: nat, x: nat) {
    x in samples && CountLess(samples, x) < k <= CountLess(samples, x + 1)
  }

  lemma {:induction false} CountStep(bits: nat, octaves: nat, samples: seq<nat>, idx: nat)
    requires octaves >= 1
    ensures CountBefore(bits, octaves, samples, idx + 1)
            == CountBefore(bits, octaves, samples, idx) + CountIn(bits, octaves, samples, idx)
  {
    if samples == [] {
    } else {
      CountStep(bits, octaves, samples[..|samples| - 1], idx);
    }
  }

  lemma {:induction false} CountAll(bits: nat, octaves: nat, samples: seq<nat>)
    requires octaves >= 1
    ensures CountBefore(bits, octaves, samples, octaves * Pow2(bits)) == |samples|
    ensures CountBefore(bits, octaves, samples, 0) == 0
  {
    if samples == [] {
    } else {
      CountAll(bits, octaves, samples[..|samples| - 1]);
      var v := samples[|samples| - 1];
      IndexMono(bits, octaves, v, v);
    }
  }

  /** Counting buckets up to x's counts at least the samples up to x; counting those before it, at most those below x. */
  lemma {:induction false} BucketsBracket(bits: nat, octaves: nat, samples: seq<nat>, x: nat, idx: nat)
    requires octaves >= 1
    ensures idx <= IndexFor(bits, octaves, x) ==> CountBefore(bits, octaves, samples, idx) <= CountLess(samples, x)
    ensures idx > IndexFor(bits, octaves, x) ==> CountLess(samples, x + 1) <= CountBefore(bits, octaves, samples, idx)
  {
    if samples == [] {
    } else {
      var v := samples[|samples| - 1];
      BucketsBracket(bits, octaves, samples[..|samples| - 1], x, idx);
      if v < x {
        IndexMono(bits, octaves, v, x);
      } else {
        IndexMono(bits, octaves, x, v);
        if v == x {
          IndexMono(bits, octaves, v, x);
        }
      }
    }
  }

  /** The first bucket whose cumulative count reaches k is the bucket of the k-th smallest sample. */
  lemma {:induction false} ScanFindsBucket(bits: nat, octaves: nat, samples: seq<nat>, k: nat, x: nat, idx: nat)
    requires octaves >= 1 && KthSmallest(samples, k, x)
    requires CountBefore(bits, octaves, samples, idx) < k <= CountBefore(bits, octaves, samples, idx + 1)
    ensures idx == IndexFor(bits, octaves, x)
  {
    BucketsBracket(bits, octaves, samples, x, idx);
    BucketsBracket(bits, octaves, samples, x, idx + 1);
  }

  lemma {:induction false} CountLessGrows(samples: seq<nat>, x: nat, y: nat)
    requires x <= y
    ensures CountLess(samples, x) <= CountLess(samples, y) <= |samples|
  {
    if samples == [] {
    } else {
      CountLessGrows(samples[..|samples| - 1], x, y);
    }
  }

  lemma {:induction false} CountLessJump(samples: seq<nat>, x: nat)
    requires CountLess(samples, x) < CountLess(samples, x + 1)
    ensures x in samples
  {
    var n := |samples| - 1;
    if samples[n] == x {
    } else {
      CountLessJump(samples[..n], x);
      assert forall y :: y in samples[..n] ==> y in samples;
    }
  }

  /** One more than the largest sample. */
  function Above(samples: seq<nat>): (b: nat)
    ensures CountLess(samples, b) == |samples|
  {
    if samples == [] then 0
    else
      var init, v := samples[..|samples| - 1], samples[|samples| - 1];
      var b := Above(init);
      CountLessGrows(init, b, if v < b then b else v + 1);
      if v < b then b else v + 1
  }

  lemma {:induction false} CountLessZero(samples: seq<nat>)
    ensures CountLess(samples, 0) == 0
  {
    if samples == [] {
    } else {
      CountLessZero(samples[..|samples| - 1]);
    }
  }

  lemma {:induction false} FirstReaching(samples: seq<nat>, k: nat, bound: nat) returns (x: nat)
    requires 1 <= k <= CountLess(samples, bound)
    ensures CountLess(samples, x) < k <= CountLess(samples, x + 1)
  {
    CountLessZero(samples);
    if k <= CountLess(samples, bound - 1) {
      x := FirstReaching(samples, k, bound - 1);
    } else {
      x := bound - 1;
    }
  }

  /** Every rank from 1 to the number of samples has its order statistic. */
  lemma {:induction false} KthExists(samples: seq<nat>, k: nat) returns (x: nat)
    requires 1 <= k <= |samples|
    ensures KthSmallest(samples, k, x)
  {
    x := FirstReaching(samples, k, Above(samples));
    CountLessJump(samples, x);
  }

  /** Order statistics are monotone in the rank, and so are the reported values. */
  lemma {:induction false} MonotoneInRank(bits: nat, octaves: nat, samples: seq<nat>, k: nat, x: nat, k': nat, x': nat)
    requires octaves >= 1 && KthSmallest(samples, k, x) && KthSmallest(samples, k', x') && k <= k'
    ensures x <= x' && Estimate(bits, octaves, x) <= Estimate(bits, octaves, x')
  {
    if x' < x {
      CountLessGrows(samples, x' + 1, x);
    }
    EstimateMono(bits, octaves, x, x');
  }

  lemma {:induction false} RecordCounts(bits: nat, octaves: nat, samples: seq<nat>, v: nat, idx: nat)
    requires octaves >= 1
    ensures CountIn(bits, octaves, samples + [v], idx)
            == CountIn(bits, octaves, samples, idx) + if IndexFor(bits, octaves, v) == idx then 1 else 0
  {
    assert (samples + [v])[..|samples|] == samples;
  }

  /** Position of the highest set bit, by shifting. */
  method HighestBit(v: nat) returns (b: nat)
    ensures v == 0 ==> b == 0
    ensures v >= 1 ==> b == Log2(v)
  {
    b := 0;
    var rest: nat := v / 2;
    while rest != 0
      invariant v == 0 ==> rest == 0 && b == 0
      invariant v >= 1 ==> Log2(v) == b + (if rest == 0 then 0 else 1 + Log2(rest))
      decreases rest
    {
      rest := rest / 2;
      b := b + 1;
    }
  }

  // ---------- what a reported value says ----------

  /**
   How far the value r reported for a sample x may be off: by less than one part in 2^bits, never
   above x, and not at all below 2^(bits + 1); but 0 shares a bucket with 1. Samples of
   2^octaves and more are clamped, and nothing is said of them.
   */
  ghost predicate Accurate(bits: nat, octaves: nat, x: nat, r: nat) {
    x < Pow2(octaves) ==>
      if x == 0 then r == 1
      else r <= x && Pow2(bits) * (x - r) < x && (x < Pow2(bits + 1) ==> r == x)
  }

  lemma {:induction false} EstimateAccurate(bits: nat, octaves: nat, x: nat)
    requires octaves >= 1
    ensures Accurate(bits, octaves, x, Estimate(bits, octaves, x))
  {
    if x == 0 {
      ZeroReportsOne(bits, octaves);
    } else if x < Pow2(octaves) {
      RelativeError(bits, octaves, x);
    }
  }

  /** r is the value reported for the order statistic of rank k. */
  ghost predicate Reported(bits: nat, octaves: nat, samples: seq<nat>, k: nat, r: nat)
    requires octaves >= 1
  {
    forall x: nat :: KthSmallest(samples, k, x) ==> r == Estimate(bits, octaves, x)
  }

  /** A larger rank is never reported as a smaller value. */
  lemma {:induction false} ReportedMono(bits: nat, octaves: nat, samples: seq<nat>, k: nat, r: nat, k': nat, r': nat)
    requires octaves >= 1 && 1 <= k <= k' <= |samples|
    requires Reported(bits, octaves, samples, k, r) && Reported(bits, octaves, samples, k', r')
    ensures r <= r'
  {
    var x := KthExists(samples, k);
    var x' := KthExists(samples, k');
    MonotoneInRank(bits, octaves, samples, k, x, k', x');
  }

  const TWO_64: int := 0x1_0000_0000_0000_0000

  function Sum(samples: seq<nat>): nat {
    if samples == [] then 0 else Sum(samples[..|samples| - 1]) + samples[|samples| - 1]
  }

  lemma {:induction false} SumOne(samples: seq<nat>, v: nat)
    ensures Sum(samples + [v]) == Sum(samples) + v
  {
    assert (samples + [v])[..|samples|] == samples;
  }

  lemma {:induction false} OneMore(a: nat, n: nat)
    ensures a * (n + 1) == a * n + a
  {
  }

  lemma {:induction false} SumBetween(samples: seq<nat>, lo: nat, hi: nat)
    requires forall i :: 0 <= i < |samples| ==> lo <= samples[i] <= hi
    ensures lo * |samples| <= Sum(samples) <= hi * |samples|
    ensures samples != [] ==> lo <= Sum(samples)
  {
    if samples == [] {
    } else {
      var n := |samples| - 1;
      SumBetween(samples[..n], lo, hi);
      OneMore(lo, n);
      OneMore(hi, n);
    }
  }

  /** A 64-bit sum that wraps is the sum modulo 2^64. */
  lemma {:induction false} SumWraps(samples: seq<nat>, v: nat)
    ensures Sum(samples + [v]) % TWO_64 == (Sum(samples) % TWO_64 + v) % TWO_64
  {
    SumOne(samples, v);
  }

  lemma {:induction false} MeanBetween(fl: real -> real, samples: seq<nat>, sum: nat, lo: nat, hi: nat)
    requires Rounds(fl) && samples != [] && sum == Sum(samples) % TWO_64
    requires forall i :: 0 <= i < |samples| ==> lo <= samples[i] <= hi
    ensures |samples| <= TWO_53 && Sum(samples) <= TWO_53 ==>
              lo as real <= Ratio(fl, sum, |samples|) <= hi as real
  {
    if |samples| <= TWO_53 && Sum(samples) <= TWO_53 {
      SumBetween(samples, lo, hi);
      RatioBetween(fl, sum, |samples|, lo, hi);
    }
  }

  /** What a computed mean is: exact where nothing rounds, close where rounding is to nearest. */
  ghost predicate MeanOk(fl: real -> real, samples: seq<nat>, m: real)
    requires samples != []
  {
    var total, n := Sum(samples) as real, |samples| as real;
    && (fl(total) == total && fl(total / n) == total / n ==> m == total / n)
    && (Near(fl(total), total) && Near(fl(fl(total) / n), fl(total) / n) ==> Close(m, total / n))
  }

  lemma {:induction false} MeanIs(fl: real -> real, samples: seq<nat>, sum: nat)
    requires Rounds(fl) && samples != [] && sum == Sum(samples) % TWO_64
    ensures |samples| <= TWO_53 && Sum(samples) < TWO_64 ==> MeanOk(fl, samples, Ratio(fl, sum, |samples|))
  {
    if |samples| <= TWO_53 && Sum(samples) < TWO_64 {
      var n := |samples|;
      WholeExact(fl, n);
      assert sum == Sum(samples);
      assert Ratio(fl, sum, n) == fl(fl(sum as real) / n as real);
      if Near(fl(sum as real), sum as real) && Near(fl(fl(sum as real) / n as real), fl(sum as real) / n as real) {
        RatioClose(fl, sum, n);
      }
    }
  }

  class LatencyHistogram {
    const bits: nat
    const octaves: nat
    const counts: array<nat>
    var total: nat
    var sum: nat
    var minimum: nat
    var maximum: nat

    /** Everything recorded. */
    ghost var samples: seq<nat>

    ghost predicate Valid()
      reads this, counts
    {
      && octaves >= 1
      && counts.Length == octaves * Pow2(bits)
      && total == |samples|
      && sum == Sum(samples) % TWO_64
      && (forall i :: 0 <= i < counts.Length ==> counts[i] == CountIn(bits, octaves, samples, i))
      && (forall i :: 0 <= i < |samples| ==> minimum <= samples[i] <= maximum)
      && (if samples == [] then minimum == TWO_64 - 1 && maximum == 0
          else minimum in samples && maximum in samples)
    }

    constructor (maxValue: nat, subBucketBits: nat)
      ensures Valid() && fresh(counts) && samples == []
      ensures bits == subBucketBits
      ensures octaves == (if maxValue == 0 then 0 else Log2(maxValue)) + 2
    {
      var top := HighestBit(maxValue);
      bits, octaves := subBucketBits, top + 2;
      counts := new nat[(top + 2) * Pow2(subBucketBits)](_ => 0);
      total, sum, minimum, maximum, samples := 0, 0, TWO_64 - 1, 0, [];
    }

    method Record(v: nat)
      requires Valid() && v < TWO_64
      modifies this, counts
      ensures Valid() && samples == old(samples) + [v]
      ensures minimum == if v < old(minimum) then v else old(minimum)
      ensures maximum == if v > old(maximum) then v else old(maximum)
    {
      IndexMono(bits, octaves, v, v);
      SumWraps(samples, v);
      total := total + 1;
      sum := (sum + v) % TWO_64;
      minimum := if v < minimum then v else minimum;
      maximum := if v > maximum then v else maximum;
      var idx := IndexFor(bits, octaves, v);
      Bump(idx, v);
    }

    /** Counts one more sample in its bucket. */
    method Bump(idx: nat, ghost v: nat)
      requires octaves >= 1 && idx < counts.Length && idx == IndexFor(bits, octaves, v)
      requires forall i :: 0 <= i < counts.Length ==> counts[i] == CountIn(bits, octaves, samples, i)
      modifies this`samples, counts
      ensures samples == old(samples) + [v]
      ensures forall i :: 0 <= i < counts.Length ==> counts[i] == CountIn(bits, octaves, samples, i)
    {
      ghost var before, cells := samples, counts[..];
      counts[idx] := counts[idx] + 1;
      samples := before + [v];
      forall i | 0 <= i < counts.Length ensures counts[i] == CountIn(bits, octaves, samples, i) {
        RecordCounts(bits, octaves, before, v, i);
        assert cells[i] == CountIn(bits, octaves, before, i);
      }
    }

    method RecordAll(data: seq<nat>)
      requires Valid() && forall i :: 0 <= i < |data| ==> data[i] < TWO_64
      modifies this, counts
      ensures Valid() && samples == old(samples) + data
    {
      var i := 0;
      while i < |data|
        invariant 0 <= i <= |data|
        invariant Valid() && samples == old(samples) + data[..i]
      {
        assert data[..i + 1] == data[..i] + [data[i]];
        Record(data[i]);
        i := i + 1;
      }
      assert data[..i] == data;
    }

    /**
     The mean as computed in floating point. As long as the sum did not wrap it is the exact mean
     where no operation rounds, and that up to a few units in the last place where they round to
     nearest; for sums up to 2^53 it is between the smallest and the largest sample.
     */
    function Mean(fl: real -> real): (m: real)
      reads this, counts
      requires Valid() && Rounds(fl)
      ensures total == 0 ==> m == 0.0
      ensures 0 < total <= TWO_53 && Sum(samples) < TWO_64 ==> MeanOk(fl, samples, m)
      ensures 0 < total <= TWO_53 && Sum(samples) <= TWO_53 ==> minimum as real <= m <= maximum as real
    {
      if total == 0 then 0.0
      else
        MeanBetween(fl, samples, sum, minimum, maximum);
        MeanIs(fl, samples, sum);
        Ratio(fl, sum, total)
    }

    /**
     The cumulative scan for a rank: the reported value of the exact order statistic of that
     rank, with the accuracy of one bucket; beyond the samples, the maximum.
     */
    method Scan(target: nat) returns (r: nat)
      requires Valid() && target >= 1
      ensures Reported(bits, octaves, samples, target, r)
      ensures target <= total ==>
                exists x: nat :: KthSmallest(samples, target, x) && Accurate(bits, octaves, x, r)
      ensures target > total ==> r == maximum
    {
      CountAll(bits, octaves, samples);
      var running, i := 0, 0;
      while i < counts.Length
        invariant 0 <= i <= counts.Length
        invariant running == CountBefore(bits, octaves, samples, i) < target
      {
        CountStep(bits, octaves, samples, i);
        running := running + counts[i];
        if running >= target {
          CountBeforeAtMost(bits, octaves, samples, i + 1);
          ScanAccurate(bits, octaves, samples, target, i);
          return ValueFor(bits, i);
        }
        i := i + 1;
      }
      forall x: nat ensures !KthSmallest(samples, target, x) {
        CountLessGrows(samples, x + 1, x + 1);
      }
      return maximum;
    }

    /** The value reported for a percentage: that of the rank computed for it, or 0 for no samples. */
    method Percentile(fl: real -> real, p: real) returns (r: nat)
      requires Valid() && Rounds(fl) && p >= 0.0
      ensures total == 0 ==> r == 0
      ensures total > 0 ==> Reported(bits, octaves, samples, Rank(fl, p, total), r)
      ensures 0 < total <= TWO_53 && p <= 100.0 ==>
                && Rank(fl, p, total) <= total
                && exists x: nat :: KthSmallest(samples, Rank(fl, p, total), x) && Accurate(bits, octaves, x, r)
      ensures total > 0 && Rank(fl, p, total) > total ==> r == maximum
    {
      if total == 0 {
        return 0;
      }
      RankWithin(fl, p, p, total);
      r := Scan(Rank(fl, p, total));
    }

    /** The printed quantiles: each as Percentile has it, and in order. The last two percentages are rounded themselves. */
    method Quantiles(fl: real -> real) returns (p50: nat, p90: nat, p99: nat, p999: nat, p9999: nat)
      requires Valid() && Rounds(fl) && 0 < total <= TWO_53
      ensures Reported(bits, octaves, samples, Rank(fl, 50.0, total), p50)
      ensures Reported(bits, octaves, samples, Rank(fl, 90.0, total), p90)
      ensures Reported(bits, octaves, samples, Rank(fl, 99.0, total), p99)
      ensures Reported(bits, octaves, samples, Rank(fl, fl(99.9), total), p999)
      ensures Reported(bits, octaves, samples, Rank(fl, fl(99.99), total), p9999)
      ensures p50 <= p90 <= p99 <= p999 <= p9999
    {
      PrintedPercentages(fl);
      p50 := Percentile(fl, 50.0);
      p90 := Percentile(fl, 90.0);
      p99 := Percentile(fl, 99.0);
      p999 := Percentile(fl, fl(99.9));
      p9999 := Percentile(fl, fl(99.99));
      PercentMono(bits, octaves, samples, fl, 50.0, p50, 90.0, p90);
      PercentMono(bits, octaves, samples, fl, 90.0, p90, 99.0, p99);
      PercentMono(bits, octaves, samples, fl, 99.0, p99, fl(99.9), p999);
      PercentMono(bits, octaves, samples, fl, fl(99.9), p999, fl(99.99), p9999);
    }

    /** The figures of the summary besides the quantiles: count, exact extremes, and a mean between them. */
    method Extremes(fl: real -> real) returns (count: nat, min: nat, mean: real, max: nat)
      requires Valid() && Rounds(fl)
      ensures count == |samples|
      ensures samples == [] ==> min == 0 && mean == 0.0 && max == 0
      ensures samples != [] ==>
                && min in samples && max in samples
                && forall i :: 0 <= i < |samples| ==> min <= samples[i] <= max
      ensures 0 < |samples| <= TWO_53 && Sum(samples) <= TWO_53 ==> min as real <= mean <= max as real
      ensures 0 < |samples| <= TWO_53 && Sum(samples) < TWO_64 ==> MeanOk(fl, samples, mean)
    {
      count, min, mean, max := total, if total > 0 then minimum else 0, Mean(fl), maximum;
    }
  }

  lemma {:induction false} PrintedPercentages(fl: real -> real)
    requires Rounds(fl)
    ensures 99.0 <= fl(99.9) <= fl(99.99) <= 100.0
  {
    WholeExact(fl, 99);
    WholeExact(fl, 100);
    RoundMono(fl, 99.0, 99.9);
    RoundMono(fl, 99.9, 99.99);
    RoundMono(fl, 99.99, 100.0);
  }

  /** A larger percentage is never reported as a smaller value. */
  lemma {:induction false} PercentMono(bits: nat, octaves: nat, samples: seq<nat>, fl: real -> real,
                                       p: real, r: nat, p': real, r': nat)
    requires octaves >= 1 && 0 < |samples| <= TWO_53 && Rounds(fl) && 0.0 <= p <= p' <= 100.0
    requires Reported(bits, octaves, samples, Rank(fl, p, |samples|), r)
    requires Reported(bits, octaves, samples, Rank(fl, p', |samples|), r')
    ensures r <= r'
  {
    RankWithin(fl, p, p', |samples|);
    ReportedMono(bits, octaves, samples, Rank(fl, p, |samples|), r, Rank(fl, p', |samples|), r');
  }

  /** The bucket at which the cumulative count reaches k is that of the k-th smallest sample, so its edge is accurate. */
  lemma {:induction false} ScanAccurate(bits: nat, octaves: nat, samples: seq<nat>, k: nat, idx: nat)
    requires octaves >= 1 && 1 <= k <= |samples|
    requires CountBefore(bits, octaves, samples, idx) < k <= CountBefore(bits, octaves, samples, idx + 1)
    ensures forall x: nat :: KthSmallest(samples, k, x) ==> ValueFor(bits, idx) == Estimate(bits, octaves, x)
    ensures exists x: nat :: KthSmallest(samples, k, x) && Accurate(bits, octaves, x, ValueFor(bits, idx))
  {
    forall x: nat | KthSmallest(samples, k, x) ensures idx == IndexFor(bits, octaves, x) {
      ScanFindsBucket(bits, octaves, samples, k, x, idx);
    }
    var x := KthExists(samples, k);
    EstimateAccurate(bits, octaves, x);
  }

  lemma {:induction false} CountBeforeAtMost(bits: nat, octaves: nat, samples: seq<nat>, idx: nat)
    requires octaves >= 1
    ensures CountBefore(bits, octaves, samples, idx) <= |samples|
  {
    if samples == [] {
    } else {
      CountBeforeAtMost(bits, octaves, samples[..|samples| - 1], idx);
    }
  }

  lemma {:induction false} SmallPowers()
    ensures Pow2(7) == 128 && Pow2(8) == 256 && Pow2(34) == 0x4_0000_0000 && Pow2(36) == 0x10_0000_0000
  {
    Pow2Sum(7, 1);
    assert Pow2(4) == 16;
    Pow2Sum(4, 4);
    Pow2Sum(8, 8);
    Pow2Sum(16, 16);
    Pow2Sum(32, 2);
    Pow2Sum(32, 4);
  }

  /** The default ceiling of 2^34 gives 36 octaves of 128 slots. */
  lemma {:induction false} DefaultShape(ceiling: nat)
    requires ceiling == 0x4_0000_0000
    ensures Log2(ceiling) == 34
  {
    SmallPowers();
    Log2Below(ceiling, 34);
    Log2Below(ceiling, 35);
    assert Pow2(35) == 2 * Pow2(34);
  }

  /** How accurate a histogram with the default parameters is. */
  lemma {:induction false} DefaultAccuracy(bits: nat, octaves: nat, x: nat, r: nat)
    requires bits == 7 && octaves == 36 && Accurate(bits, octaves, x, r)
    ensures 1 <= x < 0x10_0000_0000 ==> r <= x && 128 * (x - r) < x && (x < 256 ==> r == x)
  {
    SmallPowers();
  }

  /** A histogram with the default parameters. */
  method Default() returns (h: LatencyHistogram)
    ensures fresh(h) && fresh(h.counts) && h.Valid() && h.samples == []
    ensures h.bits == 7 && h.octaves == 36
  {
    var ceiling := 0x4_0000_0000;
    DefaultShape(ceiling);
    h := new LatencyHistogram(ceiling, 7);
  }

  /**
   From samples to a reported value, with the default parameters and for every rank: the answer
   belongs to the exact order statistic x of the rank, is at most x and within 1/128 of it for x
   up to 2^36 nanoseconds, and is x itself below 256.
   */
  method Measure(data: seq<nat>, rank: nat) returns (r: nat)
    requires forall i :: 0 <= i < |data| ==> data[i] < TWO_64
    requires 1 <= rank <= |data|
    ensures exists x: nat ::
              && KthSmallest(data, rank, x)
              && (1 <= x < 0x10_0000_0000 ==> r <= x && 128 * (x - r) < x && (x < 256 ==> r == x))
  {
    var h := Default();
    h.RecordAll(data);
    assert h.samples == data;
    r := h.Scan(rank);
    ghost var x: nat :| KthSmallest(data, rank, x) && Accurate(h.bits, h.octaves, x, r);
    DefaultAccuracy(h.bits, h.octaves, x, r);
  }
}
