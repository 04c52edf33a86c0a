/**
 Log-bucket latency histogram (src/cs_data_processor-go/metrics.go).

 Samples are microseconds.  64 buckets per octave: a value below 128 has a bucket of its
 own, a larger one shares a bucket of width 2^shift with its neighbours.
 */
module HistogramBuckets {
  import opened Powers

  const SUB_BUCKET_BITS := 6
  const SUB_BUCKET_COUNT := 64
  const BUCKET_COUNT := 4096
  const MAX_INT64 := 0x7FFF_FFFF_FFFF_FFFF

  type Int64 = v: int | -MAX_INT64 - 1 <= v <= MAX_INT64

  /** bits.Len64: the number of binary digits of v. */
  function Len64(v: nat): nat {
    if v == 0 then 0 else 1 + Len64(v / 2)
  }

  lemma {:induction false} Len64Brackets(v: nat)
    requires v > 0
    ensures Len64(v) > 0
    ensures Pow(2, Len64(v) - 1) <= v < Pow(2, Len64(v))
  {
    if v > 1 {
      Len64Brackets(v / 2);
    }
  }

  lemma Len64Range(v: nat, lo: nat, hi: nat)
    requires 0 < v && Pow(2, lo) <= v < Pow(2, hi)
    ensures lo < Len64(v) <= hi
  {
    Len64Brackets(v);
    if Len64(v) <= lo {
      PowMonotone(2, Len64(v), lo);
    }
    if hi < Len64(v) {
      PowMonotone(2, hi, Len64(v) - 1);
    }
  }

  lemma NineTimes(k: nat)
    requires k == 7 && Pow(2, k) == 128
    ensures Pow(2, 9 * k) == MAX_INT64 + 1
  {
    hide Pow;
    PowAdd(2, k, k);
    PowAdd(2, 2 * k, k);
    PowAdd(2, 3 * k, 3 * k);
    PowAdd(2, 6 * k, 3 * k);
  }

  lemma PowersUsed()
    ensures Pow(2, 6) == 64 && Pow(2, 7) == 128 && Pow(2, 63) == MAX_INT64 + 1
  {
    assert Pow(2, 6) == 64 && Pow(2, 7) == 128;
    hide Pow;
    NineTimes(7);
  }

  /** The shift of a sample with a shared bucket, and the mantissa that is left after shifting. */
  lemma ShiftBrackets(v: Int64)
    requires v >= SUB_BUCKET_COUNT
    ensures 7 <= Len64(v) <= 63
    ensures var w := Pow(2, Len64(v) - 7); 64 <= v / w < 128 && v / w * w <= v < (v / w + 1) * w
  {
    PowersUsed();
    Len64Range(v, 6, 63);
    Len64Brackets(v);
    var shift := Len64(v) - 7;
    var w := Pow(2, shift);
    PowAdd(2, 6, shift);
    PowAdd(2, 7, shift);
    QuotientBrackets(v, w, 64, 128);
  }

  lemma QuotientBrackets(v: nat, w: nat, lo: nat, hi: nat)
    requires w > 0 && lo * w <= v < hi * w
    ensures lo <= v / w < hi
    ensures v / w * w <= v < (v / w + 1) * w
  {
    var q := v / w;
    assert v == q * w + v % w;
    if q < lo {
      MulMonotone(q + 1, lo, w);
    }
    if q >= hi {
      MulMonotone(hi, q, w);
    }
  }

  function HistIndex(v: Int64): (idx: nat)
    ensures idx < BUCKET_COUNT
  {
    if v < SUB_BUCKET_COUNT then
      if v < 0 then 0 else v
    else
      ShiftBrackets(v);
      var shift := Len64(v) - (SUB_BUCKET_BITS + 1);
      var idx := SUB_BUCKET_COUNT * shift + v / Pow(2, shift);
      if idx >= BUCKET_COUNT then BUCKET_COUNT - 1 else idx
  }

  /** The representative of a bucket, in microseconds. */
  function HistValue(idx: nat): real {
    if idx < 2 * SUB_BUCKET_COUNT then idx as real
    else
      var shift := idx / SUB_BUCKET_COUNT - 1;
      var sub := idx % SUB_BUCKET_COUNT + SUB_BUCKET_COUNT;
      var width := Pow(2, shift);
      (sub * width) as real + width as real / 2.0
  }

  /** The smallest sample of a bucket; reference definition of the bucket boundaries. */
  ghost function LowerBound(idx: nat): nat {
    if idx < 2 * SUB_BUCKET_COUNT then idx
    else (idx % SUB_BUCKET_COUNT + SUB_BUCKET_COUNT) * Pow(2, idx / SUB_BUCKET_COUNT - 1)
  }

  ghost function Width(idx: nat): nat {
    if idx < 2 * SUB_BUCKET_COUNT then 1 else Pow(2, idx / SUB_BUCKET_COUNT - 1)
  }

  /** Buckets are contiguous: each starts where the one before ends. */
  lemma BucketsContiguous(idx: nat)
    ensures LowerBound(idx + 1) == LowerBound(idx) + Width(idx)
  {
    if idx >= 2 * SUB_BUCKET_COUNT - 1 {
      if (idx + 1) % 64 == 0 {
        assert (idx + 1) / 64 == idx / 64 + 1 && idx % 64 == 63;
      } else {
        assert (idx + 1) / 64 == idx / 64 && (idx + 1) % 64 == idx % 64 + 1;
      }
      if idx >= 128 {
        var w := Pow(2, idx / 64 - 1);
        assert (idx % 64 + 64) * w + w == (idx % 64 + 65) * w;
        assert 128 * w == 64 * (2 * w);
      }
    }
  }

  lemma {:induction false} LowerBoundsIncrease(i: nat, j: nat)
    requires i < j
    ensures LowerBound(i + 1) <= LowerBound(j)
    decreases j - i
  {
    if i + 1 < j {
      BucketsContiguous(i + 1);
      LowerBoundsIncrease(i + 1, j);
    }
  }

  /** A sample lies in its bucket, and the cap on the index is never what decides it. */
  lemma IndexBrackets(v: Int64)
    requires v >= 0
    ensures HistIndex(v) < BUCKET_COUNT - 1
    ensures LowerBound(HistIndex(v)) <= v < LowerBound(HistIndex(v) + 1)
  {
    var idx := HistIndex(v);
    BucketsContiguous(idx);
    if v >= SUB_BUCKET_COUNT {
      ShiftBrackets(v);
      var shift := Len64(v) - 7;
      var w := Pow(2, shift);
      var m := v / w;
      assert idx == 64 * shift + m;
      assert idx / 64 == shift + 1 && idx % 64 == m - 64;
      if shift == 0 {
      } else {
        assert (m + 1) * w == m * w + w;
      }
    }
  }

  /** The buckets partition the samples: belonging to bucket idx is lying between its bounds. */
  lemma IndexIsBucket(v: Int64, idx: nat)
    requires v >= 0
    ensures HistIndex(v) == idx <==> LowerBound(idx) <= v < LowerBound(idx + 1)
  {
    IndexBrackets(v);
    if HistIndex(v) < idx {
      LowerBoundsIncrease(HistIndex(v), idx);
    } else if idx < HistIndex(v) {
      LowerBoundsIncrease(idx, HistIndex(v));
    }
  }

  lemma IndexMonotone(u: Int64, v: Int64)
    requires u <= v
    ensures HistIndex(u) <= HistIndex(v)
  {
    if 0 <= u && HistIndex(v) < HistIndex(u) {
      IndexBrackets(u);
      IndexBrackets(v);
      LowerBoundsIncrease(HistIndex(v), HistIndex(u));
    }
  }

  /** The representative is the sample below 128 and within 1/128 of it above. */
  lemma RepresentativeAccuracy(v: Int64)
    requires v >= 0
    ensures v < 128 ==> HistValue(HistIndex(v)) == v as real
    ensures v >= 128 ==> -(v as real) <= (HistValue(HistIndex(v)) - v as real) * 128.0 <= v as real
  {
    var idx := HistIndex(v);
    IndexBrackets(v);
    BucketsContiguous(idx);
    if idx < 2 * SUB_BUCKET_COUNT {
      assert LowerBound(idx) == v;
    } else {
      LowerBoundsIncrease(127, idx);
      MulMonotone(64, idx % 64 + 64, Width(idx));
    }
  }

  lemma SmallIndex(v: Int64)
    requires 0 <= v < 128
    ensures HistIndex(v) == v
  {
    IndexIsBucket(v, v);
    BucketsContiguous(v);
  }

  /** 64 buckets to the octave: below 128 a sample is its own index, and twice the sample is 64 buckets on. */
  lemma SixtyFourPerOctave(v: Int64)
    requires v >= 0
    ensures v < 128 ==> HistIndex(v) == v
    ensures 64 <= v && 2 * v <= MAX_INT64 ==>
      HistIndex(2 * v) == HistIndex(v) + 64 && HistIndex(2 * v + 1) == HistIndex(v) + 64
  {
    hide HistIndex, LowerBound, Pow;
    if v < 128 {
      SmallIndex(v);
    }
    if 64 <= v && 2 * v <= MAX_INT64 {
      var idx := HistIndex(v);
      IndexBrackets(v);
      SmallIndex(64);
      IndexMonotone(64, v);
      DoubledBound(idx);
      DoubledBound(idx + 1);
      assert idx + 1 + 64 == idx + 64 + 1;
      IndexIsBucket(2 * v, idx + 64);
      IndexIsBucket(2 * v + 1, idx + 64);
    }
  }

  lemma DoubledBound(idx: nat)
    requires idx >= 64
    ensures LowerBound(idx + 64) == 2 * LowerBound(idx)
  {
    if idx >= 128 {
      assert (idx + 64) / 64 == idx / 64 + 1 && (idx + 64) % 64 == idx % 64;
      var p, m := Pow(2, idx / 64 - 1), idx % 64 + 64;
      assert Pow(2, (idx + 64) / 64 - 1) == 2 * p;
      assert m * (2 * p) == 2 * (m * p);
    } else {
      assert (idx + 64) / 64 == 2 && Pow(2, 1) == 2;
    }
  }

  /** From 128 on the representative is the middle of the bucket. */
  lemma RepresentativeIsMiddle(v: Int64) returns (lo: nat, hi: nat)
    requires v >= 128
    ensures lo <= v < hi && HistValue(HistIndex(v)) == (lo + hi) as real / 2.0
    ensures forall u: Int64 :: HistIndex(u) == HistIndex(v) <==> lo <= u < hi
  {
    var idx := HistIndex(v);
    lo, hi := LowerBound(idx), LowerBound(idx + 1);
    IndexBrackets(v);
    BucketsContiguous(idx);
    SixtyFourPerOctave(127);
    IndexMonotone(127, v);
    assert idx >= 128 by {
      SixtyFourPerOctave(64);
      IndexMonotone(128, v);
    }
    forall u: Int64 ensures HistIndex(u) == idx <==> lo <= u < hi {
      if u >= 0 {
        IndexIsBucket(u, idx);
      } else {
        IndexMonotone(u, 0);
      }
    }
  }

  /** Representatives are ordered as their buckets are. */
  lemma {:induction false} RepresentativesIncrease(i: nat, j: nat)
    requires i <= j
    ensures HistValue(i) <= HistValue(j)
  {
    if i < j {
      LowerBoundsIncrease(i, j);
      BucketsContiguous(i);
      RepresentativeInBucket(i);
      RepresentativeInBucket(j);
    }
  }

  lemma RepresentativeInBucket(idx: nat)
    ensures LowerBound(idx) as real <= HistValue(idx) <= (LowerBound(idx) + Width(idx)) as real
  {
  }
}

/** The histogram object: what its cells say about the samples recorded, and the reported summary. */
module LatencyHistogram {
  import opened Powers
  import opened HistogramBuckets

  type Sample = v: Int64 | v >= 0

  // ---- the samples, counted -------------------------------------------------------------

  ghost function CountIn(s: seq<Sample>, idx: int): nat {
    if s == [] then 0 else CountIn(s[..|s| - 1], idx) + if HistIndex(s[|s| - 1]) == idx then 1 else 0
  }

  ghost function CountUnder(s: seq<Sample>, idx: int): nat {
    if s == [] then 0 else CountUnder(s[..|s| - 1], idx) + if HistIndex(s[|s| - 1]) < idx then 1 else 0
  }

  ghost function CountLess(s: seq<Sample>, x: int): nat {
    if s == [] then 0 else CountLess(s[..|s| - 1], x) + if s[|s| - 1] < x then 1 else 0
  }

  ghost function Sum(s: seq<Sample>): nat {
    if s == [] then 0 else Sum(s[..|s| - 1]) + s[|s| - 1]
  }

  /** x is the k-th smallest sample. */
  ghost predicate IsRank(s: seq<Sample>, k: nat, x: Sample) {
    x in s && CountLess(s, x) < k <= CountLess(s, x + 1)
  }

  lemma {:induction false} RankSearch(s: seq<Sample>, k: nat, from: Sample) returns (x: Sample)
    requires CountLess(s, from) < k <= |s|
    ensures IsRank(s, k, x)
    decreases MAX_INT64 - from
  {
    if k <= CountLess(s, from + 1) {
      CountLessStep(s, from);
      x := from;
    } else {
      if from == MAX_INT64 {
        CountLessAll(s);
      }
      x := RankSearch(s, k, from + 1);
    }
  }

  lemma {:induction false} CountLessStep(s: seq<Sample>, x: Sample)
    ensures CountLess(s, x) < CountLess(s, x + 1) ==> x in s
  {
    if s != [] {
      CountLessStep(s[..|s| - 1], x);
    }
  }

  lemma {:induction false} CountLessAll(s: seq<Sample>)
    ensures CountLess(s, MAX_INT64 + 1) == |s| && CountLess(s, 0) == 0
  {
    if s != [] {
      CountLessAll(s[..|s| - 1]);
    }
  }

  /** Every rank from 1 to the number of samples is held by a sample. */
  lemma RankExists(s: seq<Sample>, k: nat)
    requires 1 <= k <= |s|
    ensures exists x :: IsRank(s, k, x)
  {
    CountLessAll(s);
    var x := RankSearch(s, k, 0);
  }

  // ---- the cells and what they say ------------------------------------------------------

  datatype Cells = Cells(buckets: seq<int>, count: int, sum: int, min: int, max: int)

  /** The cells are those of a histogram that has recorded exactly these samples. */
  ghost predicate Describes(c: Cells, s: seq<Sample>) {
    && |c.buckets| == BUCKET_COUNT
    && (forall i :: 0 <= i < BUCKET_COUNT ==> c.buckets[i] == CountIn(s, i))
    && c.count == |s|
    && c.sum == Sum(s)
    && (forall x :: x in s ==> c.min <= x <= c.max)
    && (c.min == MAX_INT64 || c.min in s)
    && (c.max == 0 || c.max in s)
  }

  ghost function PrefixSum(counts: seq<int>, i: nat): int
    requires i <= |counts|
  {
    if i == 0 then 0 else PrefixSum(counts, i - 1) + counts[i - 1]
  }

  lemma {:induction false} UnderStep(s: seq<Sample>, idx: int)
    ensures CountUnder(s, idx + 1) == CountUnder(s, idx) + CountIn(s, idx)
  {
    if s != [] {
      UnderStep(s[..|s| - 1], idx);
    }
  }

  lemma {:induction false} UnderBounds(s: seq<Sample>)
    ensures CountUnder(s, 0) == 0 && CountUnder(s, BUCKET_COUNT) == |s|
  {
    if s != [] {
      UnderBounds(s[..|s| - 1]);
    }
  }

  /** Adding up buckets counts the samples below a bucket boundary. */
  lemma {:induction false} PrefixCounts(c: Cells, s: seq<Sample>, i: nat)
    requires Describes(c, s) && i <= BUCKET_COUNT
    ensures PrefixSum(c.buckets, i) == CountUnder(s, i)
  {
    if i == 0 {
      UnderBounds(s);
    } else {
      PrefixCounts(c, s, i - 1);
      UnderStep(s, i - 1);
    }
  }

  // ---- quantiles ------------------------------------------------------------------------

  /** The four reported quantiles as exact fractions numerator/denominator. */
  const TARGETS: seq<(nat, nat)> := [(1, 2), (9, 10), (99, 100), (999, 1000)]

  /** Bucket i is where the running total first reaches the fraction q of all samples. */
  ghost predicate Crosses(counts: seq<int>, q: (nat, nat), i: nat)
    requires |counts| == BUCKET_COUNT
  {
    && i < BUCKET_COUNT
    && PrefixSum(counts, i) * q.1 < q.0 * PrefixSum(counts, BUCKET_COUNT)
    && q.0 * PrefixSum(counts, BUCKET_COUNT) <= PrefixSum(counts, i + 1) * q.1
  }

  /** The rank of a quantile: the ceiling of q times the number of samples. */
  function RankOf(q: (nat, nat), n: nat): nat
    requires q.1 > 0
  {
    (q.0 * n + q.1 - 1) / q.1
  }

  lemma {:induction false} UnderVersusLess(s: seq<Sample>, x: Sample)
    ensures CountUnder(s, HistIndex(x)) <= CountLess(s, x)
    ensures CountLess(s, x + 1) <= CountUnder(s, HistIndex(x) + 1)
  {
    if s != [] {
      var y := s[|s| - 1];
      UnderVersusLess(s[..|s| - 1], x);
      if y < x {
        IndexMonotone(y, x);
      } else {
        IndexMonotone(x, y);
      }
    }
  }

  lemma CeilingReaches(num: nat, den: nat, total: int, n: nat)
    requires den > 0 && total >= 0
    ensures RankOf((num, den), n) <= total <==> num * n <= total * den
  {
    var k := RankOf((num, den), n);
    assert k * den <= num * n + den - 1 < k * den + den;
    if k <= total {
      MulMonotone(k, total, den);
    } else {
      MulMonotone(total + 1, k, den);
    }
  }

  /** The bucket where the walk crosses a quantile is the bucket of the sample holding its rank. */
  lemma CrossingHoldsRank(c: Cells, s: seq<Sample>, q: (nat, nat), i: nat, x: Sample)
    requires Describes(c, s) && q.1 > 0
    requires Crosses(c.buckets, q, i)
    requires IsRank(s, RankOf(q, |s|), x)
    ensures i == HistIndex(x)
  {
    var k := RankOf(q, |s|);
    PrefixCounts(c, s, i);
    PrefixCounts(c, s, i + 1);
    PrefixCounts(c, s, BUCKET_COUNT);
    UnderBounds(s);
    UnderVersusLess(s, x);
    CeilingReaches(q.0, q.1, CountUnder(s, i), |s|);
    CeilingReaches(q.0, q.1, CountUnder(s, i + 1), |s|);
    if i < HistIndex(x) {
      UnderMonotone(s, i + 1, HistIndex(x));
    } else if HistIndex(x) < i {
      UnderMonotone(s, HistIndex(x) + 1, i);
    }
  }

  lemma {:induction false} UnderMonotone(s: seq<Sample>, i: int, j: int)
    requires i <= j
    ensures CountUnder(s, i) <= CountUnder(s, j)
  {
    if s != [] {
      UnderMonotone(s[..|s| - 1], i, j);
    }
  }

  // ---- the reported summary -------------------------------------------------------------

  datatype StageStats = StageStats(count: real, minMs: real, maxMs: real, avgMs: real, percentiles: seq<real>)

  const EMPTY_STATS := StageStats(0.0, 0.0, 0.0, 0.0, [0.0, 0.0, 0.0, 0.0])

  /** What a summary promises about the samples, the quantiles up to their bucket representatives. */
  ghost predicate Summarizes(st: StageStats, s: seq<Sample>)
    requires s != []
  {
    && st.count == |s| as real
    && (exists lo :: lo in s && st.minMs == lo as real / 1000.0 && forall x :: x in s ==> lo <= x)
    && (exists hi :: hi in s && st.maxMs == hi as real / 1000.0 && forall x :: x in s ==> x <= hi)
    && st.avgMs == Sum(s) as real / |s| as real / 1000.0
    && |st.percentiles| == |TARGETS|
    && (forall t, x: Sample | 0 <= t < |TARGETS| && IsRank(s, RankOf(TARGETS[t], |s|), x) ::
          st.percentiles[t] == HistValue(HistIndex(x)) / 1000.0)
    && (forall t, u | 0 <= t <= u < |TARGETS| :: st.percentiles[t] <= st.percentiles[u])
  }

  /**
   Percentile accuracy: each reported percentile belongs to the sample that truly holds the
   rank of that quantile, exactly below 128 microseconds and within 1/128 of it above.
   */
  lemma PercentileAccuracy(st: StageStats, s: seq<Sample>, t: nat) returns (x: Sample)
    requires s != [] && Summarizes(st, s) && t < |TARGETS|
    ensures IsRank(s, RankOf(TARGETS[t], |s|), x)
    ensures x < 128 ==> st.percentiles[t] * 1000.0 == x as real
    ensures x >= 128 ==> -(x as real) <= (st.percentiles[t] * 1000.0 - x as real) * 128.0 <= x as real
  {
    var k := RankOf(TARGETS[t], |s|);
    assert 1 <= k <= |s| by {
      CeilingReaches(TARGETS[t].0, TARGETS[t].1, 0, |s|);
      CeilingReaches(TARGETS[t].0, TARGETS[t].1, |s|, |s|);
    }
    RankExists(s, k);
    x :| IsRank(s, k, x);
    RepresentativeAccuracy(x);
    assert st.percentiles[t] == HistValue(HistIndex(x)) / 1000.0;
  }

  /** The four percentiles are the median and those at 90, 99 and 99.9 percent, by rank rounded up. */
  lemma ReportedPercentiles(st: StageStats, s: seq<Sample>, x: Sample)
    requires s != [] && Summarizes(st, s)
    ensures |st.percentiles| == 4
    ensures IsRank(s, (|s| + 1) / 2, x) ==> st.percentiles[0] == HistValue(HistIndex(x)) / 1000.0
    ensures IsRank(s, (9 * |s| + 9) / 10, x) ==> st.percentiles[1] == HistValue(HistIndex(x)) / 1000.0
    ensures IsRank(s, (99 * |s| + 99) / 100, x) ==> st.percentiles[2] == HistValue(HistIndex(x)) / 1000.0
    ensures IsRank(s, (999 * |s| + 999) / 1000, x) ==> st.percentiles[3] == HistValue(HistIndex(x)) / 1000.0
  {
    hide HistValue, HistIndex;
    assert RankOf(TARGETS[0], |s|) == (|s| + 1) / 2 && RankOf(TARGETS[1], |s|) == (9 * |s| + 9) / 10;
    assert RankOf(TARGETS[2], |s|) == (99 * |s| + 99) / 100 && RankOf(TARGETS[3], |s|) == (999 * |s| + 999) / 1000;
  }

  lemma {:induction false} SumBetween(s: seq<Sample>, lo: nat, hi: nat)
    requires forall i :: 0 <= i < |s| ==> lo <= s[i] <= hi
    ensures lo * |s| <= Sum(s) <= hi * |s|
  {
    if s != [] {
      var n := |s| - 1;
      SumBetween(s[..n], lo, hi);
      assert lo * (n + 1) == lo * n + lo && hi * (n + 1) == hi * n + hi;
    }
  }

  /** The average lies between the extremes. */
  lemma AverageIsBetween(st: StageStats, s: seq<Sample>)
    requires s != [] && Summarizes(st, s)
    ensures st.minMs <= st.avgMs <= st.maxMs
  {
    var lo :| lo in s && st.minMs == lo as real / 1000.0 && forall x :: x in s ==> lo <= x;
    var hi :| hi in s && st.maxMs == hi as real / 1000.0 && forall x :: x in s ==> x <= hi;
    forall i | 0 <= i < |s| ensures lo <= s[i] <= hi {
      assert s[i] in s;
    }
    SumBetween(s, lo, hi);
    QuotientBetween(lo, Sum(s), hi, |s|);
  }

  lemma QuotientBetween(lo: nat, sum: nat, hi: nat, n: nat)
    requires n > 0 && lo * n <= sum <= hi * n
    ensures lo as real <= sum as real / n as real <= hi as real
  {
    assert lo as real * n as real == (lo * n) as real && hi as real * n as real == (hi * n) as real;
    QuotientAbove(lo as real, sum as real, n as real);
    QuotientBelow(sum as real, hi as real, n as real);
  }

  lemma QuotientAbove(a: real, b: real, n: real)
    requires n > 0.0 && a * n <= b
    ensures a <= b / n
  {
    var q := b / n;
    assert q * n == b;
    if q < a {
      assert (a - q) * n > 0.0;
    }
  }

  lemma QuotientBelow(b: real, a: real, n: real)
    requires n > 0.0 && b <= a * n
    ensures b / n <= a
  {
    var q := b / n;
    assert q * n == b;
    if q > a {
      assert (q - a) * n > 0.0;
    }
  }

  /** Sums of samples add up. */
  lemma {:induction false} SumAddsUp(a: seq<Sample>, b: seq<Sample>)
    ensures Sum(a + b) == Sum(a) + Sum(b) && (|a| == 1 ==> Sum(a) == a[0])
  {
    if b == [] {
      assert a + b == a;
    } else {
      assert (a + b)[..|a + b| - 1] == a + b[..|b| - 1];
      SumAddsUp(a, b[..|b| - 1]);
    }
  }

  lemma LaterTargetsLater(acc: int, total: int, t: nat, u: nat)
    requires t <= u < |TARGETS| && 0 <= total
    requires acc * TARGETS[t].1 < TARGETS[t].0 * total
    ensures acc * TARGETS[u].1 < TARGETS[u].0 * total
  {
  }

  lemma CrossingsOrdered(counts: seq<int>, t: nat, u: nat, i: nat, j: nat)
    requires |counts| == BUCKET_COUNT && (forall k :: 0 <= k < BUCKET_COUNT ==> counts[k] >= 0)
    requires t <= u < |TARGETS|
    requires Crosses(counts, TARGETS[t], i) && Crosses(counts, TARGETS[u], j)
    ensures i <= j
  {
    PrefixGrows(counts, 0, BUCKET_COUNT);
    if j < i {
      PrefixGrows(counts, j + 1, i);
      MulMonotone(PrefixSum(counts, j + 1), PrefixSum(counts, i), TARGETS[t].1);
      LaterTargetsLater(PrefixSum(counts, j + 1), PrefixSum(counts, BUCKET_COUNT), t, u);
    }
  }

  lemma {:induction false} PrefixGrows(counts: seq<int>, i: nat, j: nat)
    requires i <= j <= |counts| && forall k :: 0 <= k < |counts| ==> counts[k] >= 0
    ensures PrefixSum(counts, i) <= PrefixSum(counts, j)
    decreases j - i
  {
    if i < j {
      PrefixGrows(counts, i, j - 1);
    }
  }

  lemma TargetReached(t: nat, seen: int)
    requires t < |TARGETS| && seen > 0
    ensures seen * TARGETS[t].1 >= TARGETS[t].0 * seen
  {
    MulMonotone(TARGETS[t].0, TARGETS[t].1, seen);
  }

  /** The value, in milliseconds, represents the bucket where the quantile is crossed. */
  ghost predicate Answered(counts: seq<int>, q: (nat, nat), value: real)
    requires |counts| == BUCKET_COUNT
  {
    exists i: nat :: Crosses(counts, q, i) && value == HistValue(i) / 1000.0
  }

  lemma CrossingAnswers(counts: seq<int>, q: (nat, nat), at: nat)
    requires |counts| == BUCKET_COUNT && Crosses(counts, q, at)
    ensures Answered(counts, q, HistValue(at) / 1000.0)
  {
    hide HistValue;
    var i: nat := at;
    assert Crosses(counts, q, i) && HistValue(at) / 1000.0 == HistValue(i) / 1000.0;
  }

  lemma AnswersHold(counts: seq<int>, out: seq<real>, at: seq<nat>)
    requires |counts| == BUCKET_COUNT && forall i :: 0 <= i < BUCKET_COUNT ==> counts[i] >= 0
    requires |out| == |at| == |TARGETS|
    requires forall t :: 0 <= t < |TARGETS| ==>
      Crosses(counts, TARGETS[t], at[t]) && out[t] == HistValue(at[t]) / 1000.0
    ensures forall t :: 0 <= t < |TARGETS| ==> Answered(counts, TARGETS[t], out[t])
    ensures forall t, u :: 0 <= t <= u < |TARGETS| ==> out[t] <= out[u]
  {
    hide HistValue, Crosses, Answered;
    forall t | 0 <= t < |TARGETS| ensures Answered(counts, TARGETS[t], out[t]) {
      CrossingAnswers(counts, TARGETS[t], at[t]);
    }
    forall t, u | 0 <= t <= u < |TARGETS| ensures out[t] <= out[u] {
      CrossingsOrdered(counts, t, u, at[t], at[u]);
      RepresentativesIncrease(at[t], at[u]);
    }
  }

  /** One pass over the buckets that answers all four quantiles. */
  method Percentiles(counts: seq<int>, seen: int) returns (out: seq<real>)
    requires |counts| == BUCKET_COUNT && forall i :: 0 <= i < BUCKET_COUNT ==> counts[i] >= 0
    requires seen == PrefixSum(counts, BUCKET_COUNT) > 0
    ensures |out| == |TARGETS|
    ensures forall t :: 0 <= t < |TARGETS| ==> Answered(counts, TARGETS[t], out[t])
    ensures forall t, u :: 0 <= t <= u < |TARGETS| ==> out[t] <= out[u]
  {
    hide HistValue;
    out := [0.0, 0.0, 0.0, 0.0];
    var ti := 0;
    var acc := 0;
    ghost var at: seq<nat> := [];
    var i := 0;
    while i < BUCKET_COUNT && ti < |TARGETS|
      invariant 0 <= i <= BUCKET_COUNT && 0 <= ti <= |TARGETS| && |out| == |TARGETS| && |at| == ti
      invariant acc == PrefixSum(counts, i)
      invariant forall t :: 0 <= t < ti ==> Crosses(counts, TARGETS[t], at[t]) && out[t] == HistValue(at[t]) / 1000.0
      invariant forall t :: ti <= t < |TARGETS| ==> acc * TARGETS[t].1 < TARGETS[t].0 * seen
    {
      if counts[i] != 0 {
        ghost var before := ti;
        acc := acc + counts[i];
        while ti < |TARGETS| && acc * TARGETS[ti].1 >= TARGETS[ti].0 * seen
          invariant before <= ti <= |TARGETS| && |out| == |TARGETS| && |at| == ti
          invariant forall t :: 0 <= t < ti ==>
            Crosses(counts, TARGETS[t], at[t]) && out[t] == HistValue(at[t]) / 1000.0
        {
          out := out[ti := HistValue(i) / 1000.0];
          at := at + [i];
          ti := ti + 1;
        }
        if ti < |TARGETS| {
          forall t | ti <= t < |TARGETS| ensures acc * TARGETS[t].1 < TARGETS[t].0 * seen {
            LaterTargetsLater(acc, seen, ti, t);
          }
        }
      }
      i := i + 1;
    }
    // every target is reached, so the source's fallback to the maximum has nothing left to fill
    if ti < |TARGETS| {
      TargetReached(ti, seen);
    }
    AnswersHold(counts, out, at);
  }

  class Histogram {
    var buckets: array<int>
    var count: int
    var sum: int
    var min: int
    var max: int
    ghost var samples: seq<Sample>

    ghost function View(): Cells
      reads this, buckets
    {
      Cells(buckets[..], count, sum, min, max)
    }

    ghost predicate Valid()
      reads this, buckets
    {
      Describes(View(), samples)
    }

    constructor ()
      ensures Valid() && fresh(buckets) && samples == []
    {
      buckets := new int[BUCKET_COUNT](_ => 0);
      count, sum, min, max := 0, 0, MAX_INT64, 0;
      samples := [];
    }

    /** Records one sample; negative durations count as zero. */
    method Observe(us: Int64)
      requires Valid()
      modifies this, buckets
      ensures Valid() && buckets == old(buckets)
      ensures samples == old(samples) + [if us < 0 then 0 else us]
    {
      var v: Sample := if us < 0 then 0 else us;
      var idx := HistIndex(v);
      buckets[idx] := buckets[idx] + 1;
      count := count + 1;
      sum := sum + v;
      if v < min {
        min := v;
      }
      if v > max {
        max := v;
      }
      samples := samples + [v];
      assert samples[..|samples| - 1] == old(samples);
    }

    method Reset()
      requires buckets.Length == BUCKET_COUNT
      modifies this, buckets
      ensures Valid() && buckets == old(buckets) && samples == []
    {
      for i := 0 to BUCKET_COUNT
        invariant buckets == old(buckets)
        invariant forall j :: 0 <= j < i ==> buckets[j] == 0
      {
        buckets[i] := 0;
      }
      count, sum, min, max := 0, 0, MAX_INT64, 0;
      samples := [];
    }

    method Snapshot() returns (st: StageStats)
      requires Valid()
      ensures samples == [] ==> st == StageStats(0.0, 0.0, 0.0, 0.0, [0.0, 0.0, 0.0, 0.0])
      ensures samples != [] ==> Summarizes(st, samples)
    {
      if count == 0 {
        return EMPTY_STATS;
      }
      assert |samples| > 0;
      assert samples[0] in samples;
      ghost var cells := View();
      var minMs := min as real / 1000.0;
      var maxMs := max as real / 1000.0;
      var avgMs := sum as real / count as real / 1000.0;
      var counts: seq<int> := [];
      var seen := 0;
      for i := 0 to BUCKET_COUNT
        invariant counts == buckets[..i] && seen == PrefixSum(cells.buckets, i)
      {
        counts := counts + [buckets[i]];
        seen := seen + buckets[i];
      }
      assert counts == cells.buckets;
      PrefixCounts(cells, samples, BUCKET_COUNT);
      UnderBounds(samples);
      var ps := Percentiles(counts, seen);
      st := StageStats(count as real, minMs, maxMs, avgMs, ps);
      forall t, x: Sample | 0 <= t < |TARGETS| && IsRank(samples, RankOf(TARGETS[t], |samples|), x)
        ensures ps[t] == HistValue(HistIndex(x)) / 1000.0
      {
        var i :| Crosses(counts, TARGETS[t], i) && ps[t] == HistValue(i) / 1000.0;
        CrossingHoldsRank(cells, samples, TARGETS[t], i, x);
      }
    }
  }
}
