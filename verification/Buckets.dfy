/**
 The bucketing arithmetic of the latency histogram (include/latency_histogram.hpp): octaves by
 highest set bit, each divided into 2^bits linear slots. The value reported for a sample's
 bucket never exceeds the sample and is within one part in 2^bits of it.
 */
module Buckets {
  import opened Cursors

  function Pow2(n: nat): (r: nat)
    ensures r >= 1
  {
    if n == 0 then 1 else 2 * Pow2(n - 1)
  }

  /** Position of the highest set bit. */
  function Log2(v: nat): (r: nat)
    requires v >= 1
    ensures Pow2(r) <= v < 2 * Pow2(r)
  {
    if v == 1 then 0 else 1 + Log2(v / 2)
  }

  function Div(x: nat, d: nat): nat
    requires d >= 1
  {
    x / d
  }

  function Mod(x: nat, d: nat): nat
    requires d >= 1
  {
    x % d
  }

  function Mul(x: nat, y: nat): nat {
    x * y
  }

  /** Slot of an offset within its octave, before clamping. */
  function SubSlot(bits: nat, octave: nat, offset: nat): nat {
    if octave >= bits then Div(offset, Pow2(octave - bits)) else offset
  }

  function Least(a: nat, b: nat): nat {
    if b < a then b else a
  }

  /** Bucket of a value, in a histogram of `octaves` octaves. */
  function IndexFor(bits: nat, octaves: nat, v: nat): nat
    requires octaves >= 1
  {
    if v == 0 then 0
    else
      var octave := Log2(v);
      var sub := Least(SubSlot(bits, octave, v - Pow2(octave)), Pow2(bits) - 1);
      Least(Mul(octave, Pow2(bits)) + sub, octaves * Pow2(bits) - 1)
  }

  function Width(bits: nat, octave: nat): (w: nat)
    ensures w >= 1
  {
    if octave >= bits then Pow2(octave - bits) else 1
  }

  /** The value reported for a bucket: its lower edge. */
  function ValueFor(bits: nat, idx: nat): nat {
    LowerEdge(bits, Div(idx, Pow2(bits)), Mod(idx, Pow2(bits)))
  }

  function LowerEdge(bits: nat, octave: nat, sub: nat): nat {
    Pow2(octave) + Mul(sub, Width(bits, octave))
  }

  /** What the histogram reports for a sample. */
  function Estimate(bits: nat, octaves: nat, v: nat): nat
    requires octaves >= 1
  {
    ValueFor(bits, IndexFor(bits, octaves, v))
  }

  lemma {:induction false} Pow2Sum(a: nat, b: nat)
    ensures Pow2(a + b) == Pow2(a) * Pow2(b)
  {
    if a == 0 {
    } else {
      Pow2Sum(a - 1, b);
    }
  }

  lemma {:induction false} Pow2Mono(a: nat, b: nat)
    requires a <= b
    ensures Pow2(a) <= Pow2(b)
    ensures a < b ==> 2 * Pow2(a) <= Pow2(b)
  {
    if a == b {
    } else {
      Pow2Mono(a, b - 1);
    }
  }

  lemma {:induction false} Log2Mono(v: nat, w: nat)
    requires 1 <= v <= w
    ensures Log2(v) <= Log2(w)
  {
    if Log2(w) < Log2(v) {
      Pow2Mono(Log2(w), Log2(v));
    }
  }

  lemma {:induction false} Log2Below(v: nat, n: nat)
    requires 1 <= v
    ensures v < Pow2(n) <==> Log2(v) < n
  {
    if Log2(v) < n {
      Pow2Mono(Log2(v), n);
    } else {
      Pow2Mono(n, Log2(v));
    }
  }

  lemma {:induction false} DivBelow(x: nat, d: nat, n: nat)
    requires d >= 1 && x < d * n
    ensures x / d < n
  {
    if x / d >= n {
      MulMono(n, x / d, d);
    }
  }

  lemma {:induction false} MulMono(a: nat, b: nat, c: nat)
    requires a <= b
    ensures a * c <= b * c && c * a <= c * b
  {
    assert (b - a) * c >= 0;
  }

  lemma {:induction false} DivMono(x: nat, y: nat, d: nat)
    requires d >= 1 && x <= y
    ensures x / d <= y / d
  {
    if y / d < x / d {
      Gap(y / d, x / d, d);
    }
  }

  lemma {:induction false} SlotOf(offset: nat, w: nat, cnt: nat)
    requires w >= 1 && offset < w * cnt
    ensures Div(offset, w) < cnt && Div(offset, w) * w <= offset < Div(offset, w) * w + w
  {
    DivBelow(offset, w, cnt);
    assert offset == (offset / w) * w + offset % w;
  }

  /** Within an octave every offset has a slot: the clamp of the slot number never bites. */
  lemma {:induction false} SubSlotBelow(bits: nat, octave: nat, offset: nat)
    requires offset < Pow2(octave)
    ensures SubSlot(bits, octave, offset) < Pow2(bits)
    ensures var w := Width(bits, octave);
            SubSlot(bits, octave, offset) * w <= offset < SubSlot(bits, octave, offset) * w + w
  {
    if octave >= bits {
      Pow2Sum(octave - bits, bits);
      SlotOf(offset, Pow2(octave - bits), Pow2(bits));
    } else {
      Pow2Mono(octave, bits);
    }
  }

  /** Octave and slot of a bucket index. */
  lemma {:induction false} Decode(bits: nat, octave: nat, sub: nat)
    requires sub < Pow2(bits)
    ensures (octave * Pow2(bits) + sub) / Pow2(bits) == octave
    ensures (octave * Pow2(bits) + sub) % Pow2(bits) == sub
  {
    DecodeBy(octave, sub, Pow2(bits));
  }

  lemma {:induction false} DecodeBy(octave: nat, sub: nat, cnt: nat)
    requires sub < cnt
    ensures (octave * cnt + sub) / cnt == octave && (octave * cnt + sub) % cnt == sub
  {
    var idx := octave * cnt + sub;
    assert idx == (idx / cnt) * cnt + idx % cnt;
    QuotientUnique(octave, sub, idx / cnt, idx % cnt, cnt);
  }

  /** In range, the index is the octave and slot, unclamped. */
  lemma {:induction false} IndexInRange(bits: nat, octaves: nat, v: nat)
    requires octaves >= 1 && 1 <= v < Pow2(octaves)
    ensures var octave := Log2(v);
            var sub := SubSlot(bits, octave, v - Pow2(octave));
            && octave < octaves && sub < Pow2(bits)
            && IndexFor(bits, octaves, v) == octave * Pow2(bits) + sub < octaves * Pow2(bits)
  {
    var octave := Log2(v);
    Log2Below(v, octaves);
    SubSlotBelow(bits, octave, v - Pow2(octave));
    Gap(octave, octaves, Pow2(bits));
  }

  /** The reported value is the lower edge of the sample's bucket. */
  lemma {:induction false} EstimateInRange(bits: nat, octaves: nat, v: nat)
    requires octaves >= 1 && 1 <= v < Pow2(octaves)
    ensures var octave := Log2(v);
            var r := Estimate(bits, octaves, v);
            && Pow2(octave) <= r <= v < r + Width(bits, octave)
            && r == Pow2(octave) + SubSlot(bits, octave, v - Pow2(octave)) * Width(bits, octave)
  {
    var octave := Log2(v);
    var sub := SubSlot(bits, octave, v - Pow2(octave));
    IndexInRange(bits, octaves, v);
    Decode(bits, octave, sub);
    SubSlotBelow(bits, octave, v - Pow2(octave));
  }

  /** Less than a bucket's width is less than one part in 2^bits of the octave. */
  lemma {:induction false} WidthIsSmall(bits: nat, octave: nat, gap: nat)
    requires gap < Width(bits, octave)
    ensures Pow2(bits) * gap < Pow2(octave)
  {
    if octave >= bits {
      Pow2Sum(octave - bits, bits);
      StrictScale(gap, Pow2(octave - bits), Pow2(bits));
    }
  }

  /**
   Accuracy of one bucket: for every sample in range the reported value is at most the sample,
   off by less than one part in 2^bits, and exact below 2^(bits + 1).
   */
  lemma {:induction false} RelativeError(bits: nat, octaves: nat, v: nat)
    requires octaves >= 1 && 1 <= v < Pow2(octaves)
    ensures var r := Estimate(bits, octaves, v);
            && r <= v
            && Pow2(bits) * (v - r) < v
            && (v < Pow2(bits + 1) ==> r == v)
  {
    EstimateInRange(bits, octaves, v);
    WidthIsSmall(bits, Log2(v), v - Estimate(bits, octaves, v));
    Log2Below(v, bits + 1);
  }

  lemma {:induction false} StrictScale(a: nat, b: nat, c: nat)
    requires a < b && c >= 1
    ensures c * a < b * c
  {
    assert b * c - c * a == c * (b - a);
    assert c * (b - a) >= c by { MulMono(1, b - a, c); }
  }

  /** Zero shares the bucket of one, so it is the exception: it is reported as 1. */
  lemma {:induction false} ZeroReportsOne(bits: nat, octaves: nat)
    requires octaves >= 1
    ensures Estimate(bits, octaves, 0) == 1
    ensures IndexFor(bits, octaves, 0) == IndexFor(bits, octaves, 1)
  {
    assert 0 / Pow2(bits) == 0 && 0 % Pow2(bits) == 0;
    assert Pow2(0) == 1;
    Pow2Mono(1, octaves);
    IndexInRange(bits, octaves, 1);
    SubSlotBelow(bits, 0, 0);
    if bits == 0 {
      assert SubSlot(bits, 0, 0) == 0 / Pow2(0) == 0;
    }
  }

  lemma {:induction false} Log2Is(v: nat, n: nat)
    requires Pow2(n) <= v < 2 * Pow2(n)
    ensures Log2(v) == n
  {
    Log2Below(v, n);
    Log2Below(v, n + 1);
  }

  lemma {:induction false} SameMultiple(a: nat, b: nat, w: nat)
    requires w >= 1 && a * w <= b * w < a * w + w
    ensures a == b
  {
    if a < b {
      MulMono(a + 1, b, w);
    } else if b < a {
      MulMono(b + 1, a, w);
    }
  }

  /** The lower edge of a bucket falls in that bucket. */
  lemma {:induction false} EdgeInBucket(bits: nat, octaves: nat, v: nat)
    requires octaves >= 1 && 1 <= v < Pow2(octaves)
    ensures IndexFor(bits, octaves, Estimate(bits, octaves, v)) == IndexFor(bits, octaves, v)
  {
    var octave, r := Log2(v), Estimate(bits, octaves, v);
    var sub := SubSlot(bits, octave, v - Pow2(octave));
    EstimateInRange(bits, octaves, v);
    Log2Is(r, octave);
    SubSlotBelow(bits, octave, r - Pow2(octave));
    SameMultiple(SubSlot(bits, octave, r - Pow2(octave)), sub, Width(bits, octave));
    IndexInRange(bits, octaves, v);
    IndexInRange(bits, octaves, r);
  }

  /** What is reported for a sample is the least value, from 1 up, that falls in the sample's bucket. */
  lemma {:induction false} EstimateIsLeast(bits: nat, octaves: nat, v: nat, w: nat)
    requires octaves >= 1 && 1 <= v < Pow2(octaves)
    ensures IndexFor(bits, octaves, Estimate(bits, octaves, v)) == IndexFor(bits, octaves, v)
    ensures w >= 1 && IndexFor(bits, octaves, w) == IndexFor(bits, octaves, v) ==> Estimate(bits, octaves, v) <= w
  {
    EdgeInBucket(bits, octaves, v);
    EstimateInRange(bits, octaves, v);
    if 1 <= w < Pow2(octaves) {
      EstimateInRange(bits, octaves, w);
    }
  }

  /** Larger samples never fall in earlier buckets. */
  lemma {:induction false} IndexMono(bits: nat, octaves: nat, v: nat, w: nat)
    requires octaves >= 1 && v <= w
    ensures IndexFor(bits, octaves, v) <= IndexFor(bits, octaves, w) < octaves * Pow2(bits)
  {
    assert octaves * Pow2(bits) >= 1 by { MulMono(1, octaves, Pow2(bits)); }
    if v > 0 {
      var ov, ow := Log2(v), Log2(w);
      Log2Mono(v, w);
      SubSlotBelow(bits, ov, v - Pow2(ov));
      SubSlotBelow(bits, ow, w - Pow2(ow));
      if ov == ow {
        SubMono(bits, ov, v - Pow2(ov), w - Pow2(ow));
      } else {
        Gap(ov, ow, Pow2(bits));
      }
    }
  }

  lemma {:induction false} SubMono(bits: nat, octave: nat, x: nat, y: nat)
    requires x <= y
    ensures SubSlot(bits, octave, x) <= SubSlot(bits, octave, y)
  {
    if octave >= bits {
      DivMono(x, y, Pow2(octave - bits));
    }
  }

  /** Beyond the last octave everything goes to the last bucket. */
  lemma {:induction false} IndexOutOfRange(bits: nat, octaves: nat, v: nat)
    requires octaves >= 1 && v >= Pow2(octaves)
    ensures IndexFor(bits, octaves, v) == octaves * Pow2(bits) - 1
  {
    Log2Below(v, octaves);
    MulMono(octaves, Log2(v), Pow2(bits));
  }

  lemma {:induction false} LastBucket(bits: nat, octaves: nat)
    requires octaves >= 1
    ensures octaves * Pow2(bits) >= 1
    ensures ValueFor(bits, octaves * Pow2(bits) - 1) == LowerEdge(bits, octaves - 1, Pow2(bits) - 1)
  {
    MulMono(1, octaves, Pow2(bits));
    assert octaves * Pow2(bits) - 1 == (octaves - 1) * Pow2(bits) + (Pow2(bits) - 1);
    Decode(bits, octaves - 1, Pow2(bits) - 1);
  }

  lemma {:induction false} EdgeMono(bits: nat, octave: nat, x: nat, y: nat)
    requires x <= y
    ensures SubSlot(bits, octave, x) * Width(bits, octave) <= SubSlot(bits, octave, y) * Width(bits, octave)
  {
    SubMono(bits, octave, x, y);
    MulMono(SubSlot(bits, octave, x), SubSlot(bits, octave, y), Width(bits, octave));
  }

  /** In range, larger samples are never reported as smaller. */
  lemma {:induction false} EstimateMonoInRange(bits: nat, octaves: nat, v: nat, w: nat)
    requires octaves >= 1 && 1 <= v <= w < Pow2(octaves)
    ensures Estimate(bits, octaves, v) <= Estimate(bits, octaves, w)
  {
    EstimateInRange(bits, octaves, v);
    EstimateInRange(bits, octaves, w);
    Log2Mono(v, w);
    if Log2(v) == Log2(w) {
      EdgeMono(bits, Log2(v), v - Pow2(Log2(v)), w - Pow2(Log2(w)));
    } else {
      Pow2Mono(Log2(v), Log2(w));
    }
  }

  lemma {:induction false} EstimateBelowLast(bits: nat, octaves: nat, v: nat)
    requires octaves >= 1 && 1 <= v < Pow2(octaves)
    ensures Estimate(bits, octaves, v) <= LowerEdge(bits, octaves - 1, Pow2(bits) - 1)
  {
    var ov := Log2(v);
    EstimateInRange(bits, octaves, v);
    IndexInRange(bits, octaves, v);
    if ov == octaves - 1 {
      MulMono(SubSlot(bits, ov, v - Pow2(ov)), Pow2(bits) - 1, Width(bits, ov));
    } else {
      Pow2Mono(ov, octaves - 1);
    }
  }

  /** Reported values are monotone over all samples, in range or not. */
  lemma {:induction false} EstimateMono(bits: nat, octaves: nat, v: nat, w: nat)
    requires octaves >= 1 && v <= w
    ensures Estimate(bits, octaves, v) <= Estimate(bits, octaves, w)
  {
    if v == 0 {
      ZeroReportsOne(bits, octaves);
    } else if w < Pow2(octaves) {
      EstimateMonoInRange(bits, octaves, v, w);
    } else {
      IndexOutOfRange(bits, octaves, w);
      LastBucket(bits, octaves);
      if v < Pow2(octaves) {
        EstimateBelowLast(bits, octaves, v);
      } else {
        IndexOutOfRange(bits, octaves, v);
      }
    }
  }
}
