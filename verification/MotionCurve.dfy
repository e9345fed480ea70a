/** The personal motion curve learnt from recorded samples: 32 knots from the quantiles of
    the observed speeds. */
module MotionCurve {
  import opened Bytes
  import opened RealArith

  const KNOTS: nat := 32
  const READY_QUALITY: int := 60

  datatype Mode = Reaction | Continuous | Other

  /** A sample: what its points add up to, and how long it took. */
  datatype Sample = Sample(mode: Mode, distance: real, durationMs: real)

  function Clamp(x: real): (r: real)
    ensures 0.0 <= r <= 1.0
  {
    Max(0.0, Min(1.0, x))
  }

  /** Rounding to six decimals, halves upward. */
  function Round6(x: real): real {
    (x * 1000000.0 + 0.5).Floor as real / 1000000.0
  }

  function RoundInt(x: real): int {
    (x + 0.5).Floor
  }

  function Sum(s: seq<real>): real
    decreases |s|
  {
    if s == [] then 0.0 else Sum(s[..|s| - 1]) + s[|s| - 1]
  }

  predicate Ascending(s: seq<real>) {
    forall i, j :: 0 <= i <= j < |s| ==> s[i] <= s[j]
  }

  /** Inserting x into an ascending sequence. */
  function Insert(s: seq<real>, x: real): (r: seq<real>)
    ensures |r| == |s| + 1
    decreases |s|
  {
    if s == [] || s[|s| - 1] <= x then s + [x] else Insert(s[..|s| - 1], x) + [s[|s| - 1]]
  }

  function Sorted(s: seq<real>): (r: seq<real>)
    ensures |r| == |s|
    decreases |s|
  {
    if s == [] then [] else Insert(Sorted(s[..|s| - 1]), s[|s| - 1])
  }

  function Speed(s: Sample): real {
    s.distance / Max(s.durationMs, 1.0)
  }

  /** The speed curve at knot i: the quantile at i/31, between the two nearest samples. */
  function Quantile(sorted: seq<real>, i: nat): real
    requires sorted != [] && i < KNOTS
  {
    var n := |sorted|;
    var lo := i * (n - 1) / 31;
    IndexBelow(i, n - 1);
    var hi := if lo + 1 < n - 1 then lo + 1 else n - 1;
    var frac := (i * (n - 1)) as real / 31.0 - lo as real;
    sorted[lo] * (1.0 - frac) + sorted[hi] * frac
  }

  lemma IndexBelow(i: nat, m: nat)
    requires i <= 31
    ensures 0 <= i * m / 31 <= m
    ensures i * m <= 31 * m
  {
    MulMono(i, 31, m);
  }

  function Ramp(i: nat): real {
    0.72 + 0.28 * i as real / 31.0
  }

  function Knot(sorted: seq<real>, base: real, i: nat): real
    requires sorted != [] && i < KNOTS && base > 0.0
  {
    Round6(Clamp(Quantile(sorted, i) / base * Ramp(i)))
  }

  function Base(speeds: seq<real>): (b: real)
    requires speeds != []
    ensures b >= 0.000001
  {
    Max(Sum(speeds) / |speeds| as real, 0.000001)
  }

  function Quality(samples: nat, efficiency: real): int {
    var q := RoundInt(50.0 * Min(1.0, samples as real / 12.0) + 50.0 * Clamp(efficiency));
    if q < 0 then 0 else if q > 100 then 100 else q
  }

  // ------------------------------------------------------------ training

  datatype Trained = Model(knots: seq<real>, quality: int, ready: bool) | ModesMissing

  predicate BothModes(samples: seq<Sample>) {
    (exists s <- samples :: s.mode == Reaction) && (exists s <- samples :: s.mode == Continuous)
  }

  function Speeds(samples: seq<Sample>): (r: seq<real>)
    ensures |r| == |samples|
  {
    seq(|samples|, i requires 0 <= i < |samples| => Speed(samples[i]))
  }

  /** train(): speeds, their sorted form, the knots one by one, and the quality. */
  method Train(samples: seq<Sample>, efficiency: real) returns (r: Trained)
    ensures r.ModesMissing? <==> !BothModes(samples)
    ensures r.Model? ==>
      && |r.knots| == 32 && r.quality == Quality(|samples|, efficiency) && r.ready == (r.quality >= 60)
      && forall i :: 0 <= i < KNOTS ==> r.knots[i] == Knot(Sorted(Speeds(samples)), Base(Speeds(samples)), i)
  {
    hide Knot;
    hide Base;
    hide Quality;
    if !BothModes(samples) { return ModesMissing; }
    var speeds: seq<real> := [];
    for i := 0 to |samples|
      invariant |speeds| == i && forall k :: 0 <= k < i ==> speeds[k] == Speed(samples[k])
    {
      speeds := speeds + [Speed(samples[i])];
    }
    assert speeds == Speeds(samples);
    var sorted, base := Sorted(speeds), Base(speeds);
    var knots: seq<real> := [];
    for i := 0 to KNOTS
      invariant |knots| == i && forall k :: 0 <= k < i ==> knots[k] == Knot(sorted, base, k)
    {
      knots := knots + [Knot(sorted, base, i)];
    }
    var quality := Quality(|samples|, efficiency);
    return Model(knots, quality, quality >= READY_QUALITY);
  }

  // ------------------------------------------------------------ laws of sorting and mean

  lemma SumSnoc(s: seq<real>, x: real)
    ensures Sum(s + [x]) == Sum(s) + x
  {
    assert (s + [x])[..|s|] == s;
  }

  lemma {:induction false} InsertPermutes(s: seq<real>, x: real)
    ensures multiset(Insert(s, x)) == multiset(s) + multiset{x}
    decreases |s|
  {
    if s != [] && s[|s| - 1] > x {
      var front, last := s[..|s| - 1], s[|s| - 1];
      InsertPermutes(front, x);
      assert s == front + [last];
    }
  }

  lemma {:induction false} InsertSum(s: seq<real>, x: real)
    ensures Sum(Insert(s, x)) == Sum(s) + x
    decreases |s|
  {
    if s == [] || s[|s| - 1] <= x {
      SumSnoc(s, x);
    } else {
      InsertSum(s[..|s| - 1], x);
      SumSnoc(Insert(s[..|s| - 1], x), s[|s| - 1]);
    }
  }

  lemma {:induction false} InsertBelow(s: seq<real>, x: real, top: real)
    requires x <= top && forall i :: 0 <= i < |s| ==> s[i] <= top
    ensures forall i :: 0 <= i < |Insert(s, x)| ==> Insert(s, x)[i] <= top
    decreases |s|
  {
    if s != [] && s[|s| - 1] > x {
      InsertBelow(s[..|s| - 1], x, top);
    }
  }

  lemma {:induction false} InsertAscends(s: seq<real>, x: real)
    requires Ascending(s)
    ensures Ascending(Insert(s, x))
    decreases |s|
  {
    if s != [] && s[|s| - 1] > x {
      InsertAscends(s[..|s| - 1], x);
      InsertBelow(s[..|s| - 1], x, s[|s| - 1]);
    }
  }

  /** The sorted speeds are an ascending permutation of the speeds. */
  lemma {:induction false} SortedLaws(s: seq<real>)
    ensures Ascending(Sorted(s)) && multiset(Sorted(s)) == multiset(s) && Sum(Sorted(s)) == Sum(s)
    decreases |s|
  {
    hide Insert;
    hide Ascending;
    if s != [] {
      var front, last := s[..|s| - 1], s[|s| - 1];
      SortedLaws(front);
      InsertAscends(Sorted(front), last);
      InsertPermutes(Sorted(front), last);
      InsertSum(Sorted(front), last);
      assert s == front + [last];
    } else {
      EmptyAscends(s);
    }
  }

  lemma EmptyAscends(s: seq<real>)
    requires s == []
    ensures Ascending(s)
  {
  }

  lemma SortedMember(s: seq<real>, i: nat)
    requires i < |s|
    ensures Sorted(s)[i] in s
  {
    hide Sorted;
    hide Sum;
    hide Ascending;
    SortedLaws(s);
    assert Sorted(s)[i] in multiset(Sorted(s));
  }

  lemma {:induction false} SumBetween(s: seq<real>, lo: real, hi: real)
    requires forall i :: 0 <= i < |s| ==> lo <= s[i] <= hi
    ensures lo * |s| as real <= Sum(s) <= hi * |s| as real
    decreases |s|
  {
    if s != [] {
      var n := |s| - 1;
      SumBetween(s[..n], lo, hi);
      assert lo * (n + 1) as real == lo * n as real + lo;
      assert hi * (n + 1) as real == hi * n as real + hi;
    }
  }

  lemma MeanOfAscending(t: seq<real>)
    requires t != [] && Ascending(t)
    ensures t[0] <= Sum(t) / |t| as real <= t[|t| - 1]
  {
    hide Sum;
    SumBetween(t, t[0], t[|t| - 1]);
    DivideBounds(Sum(t), |t| as real, t[0], t[|t| - 1]);
  }

  /** The mean lies between the slowest and the fastest sample. */
  lemma MeanBetween(s: seq<real>)
    requires s != []
    ensures Sorted(s)[0] <= Sum(s) / |s| as real <= Sorted(s)[|s| - 1]
  {
    hide Sorted;
    hide Sum;
    hide Ascending;
    SortedLaws(s);
    MeanOfAscending(Sorted(s));
  }

  // ------------------------------------------------------------ laws of the quantile

  /** The interpolated value at p steps of 1/31 of a sample distance. */
  function At(s: seq<real>, p: nat): real
    requires s != [] && p <= 31 * (|s| - 1)
  {
    var lo, r := p / 31, p % 31;
    var hi := if lo + 1 < |s| - 1 then lo + 1 else |s| - 1;
    s[lo] * (1.0 - r as real / 31.0) + s[hi] * (r as real / 31.0)
  }

  lemma QuantileIsAt(s: seq<real>, i: nat)
    requires s != [] && i < KNOTS
    ensures i * (|s| - 1) <= 31 * (|s| - 1) && Quantile(s, i) == At(s, i * (|s| - 1))
  {
    IndexBelow(i, |s| - 1);
    var p := i * (|s| - 1);
    RemainderReal(p);
  }

  lemma RemainderReal(p: nat)
    ensures p as real / 31.0 - (p / 31) as real == (p % 31) as real / 31.0
  {
    assert p == 31 * (p / 31) + p % 31;
  }

  lemma Between(a: real, b: real, f: real)
    requires a <= b && 0.0 <= f <= 1.0
    ensures a <= a * (1.0 - f) + b * f <= b
  {
    ProductNonNegative(b - a, f);
    ProductNonNegative(b - a, 1.0 - f);
    assert a * (1.0 - f) + b * f == a + (b - a) * f;
    assert b - (a * (1.0 - f) + b * f) == (b - a) * (1.0 - f);
  }

  lemma AtStep(s: seq<real>, p: nat)
    requires s != [] && Ascending(s) && p + 1 <= 31 * (|s| - 1)
    ensures At(s, p) <= At(s, p + 1)
  {
    var lo, r := p / 31, p % 31;
    var a, b := s[lo], s[lo + 1];
    if r == 30 {
      assert (p + 1) / 31 == lo + 1 && (p + 1) % 31 == 0;
      Between(a, b, r as real / 31.0);
    } else {
      assert (p + 1) / 31 == lo && (p + 1) % 31 == r + 1;
      Blend(a, b, r as real / 31.0, (r + 1) as real / 31.0);
    }
  }

  lemma Blend(a: real, b: real, f: real, g: real)
    requires a <= b && f <= g
    ensures a * (1.0 - f) + b * f <= a * (1.0 - g) + b * g
  {
    ProductNonNegative(b - a, g - f);
    assert a * (1.0 - g) + b * g - (a * (1.0 - f) + b * f) == (b - a) * (g - f);
  }

  lemma {:induction false} AtMonotone(s: seq<real>, p: nat, q: nat)
    requires s != [] && Ascending(s) && p <= q <= 31 * (|s| - 1)
    ensures At(s, p) <= At(s, q)
    decreases q - p
  {
    hide At;
    if p < q {
      AtStep(s, p);
      AtMonotone(s, p + 1, q);
    }
  }

  lemma QuantileMonotone(s: seq<real>, i: nat, j: nat)
    requires s != [] && Ascending(s) && i <= j < KNOTS
    ensures Quantile(s, i) <= Quantile(s, j)
  {
    hide At;
    hide Quantile;
    QuantileIsAt(s, i);
    QuantileIsAt(s, j);
    MulMono(i, j, |s| - 1);
    AtMonotone(s, i * (|s| - 1), j * (|s| - 1));
  }

  lemma QuantileEnds(s: seq<real>)
    requires s != []
    ensures Quantile(s, 0) == s[0] && Quantile(s, 31) == s[|s| - 1]
  {
    var m := |s| - 1;
    QuantileIsAt(s, 31);
    assert 31 * m / 31 == m && 31 * m % 31 == 0;
  }

  // ------------------------------------------------------------ the curve

  lemma RoundMonotone(x: real, y: real)
    requires x <= y
    ensures Round6(x) <= Round6(y)
  {
    var a, b := (x * 1000000.0 + 0.5).Floor, (y * 1000000.0 + 0.5).Floor;
    assert a <= b;
  }

  lemma RoundFixed()
    ensures Round6(0.0) == 0.0 && Round6(0.72) == 0.72 && Round6(1.0) == 1.0
  {
    assert (0.5).Floor == 0;
    assert (720000.5).Floor == 720000;
    assert (1000000.5).Floor == 1000000;
  }

  predicate NonNegativeSpeeds(samples: seq<Sample>) {
    forall i :: 0 <= i < |samples| ==> samples[i].distance >= 0.0
  }

  lemma SpeedsNonNegative(samples: seq<Sample>)
    requires NonNegativeSpeeds(samples)
    ensures forall i :: 0 <= i < |samples| ==> Sorted(Speeds(samples))[i] >= 0.0
  {
    var v := Speeds(samples);
    SortedLaws(v);
    forall i | 0 <= i < |samples| ensures v[i] >= 0.0 {
      assert samples[i].distance >= 0.0;
      QuotientNonNegative(samples[i].distance, Max(samples[i].durationMs, 1.0));
    }
    forall i | 0 <= i < |samples| ensures Sorted(v)[i] >= 0.0 {
      SortedMember(v, i);
    }
  }

  lemma KnotStep(s: seq<real>, base: real, i: nat, j: nat)
    requires s != [] && Ascending(s) && s[0] >= 0.0 && base > 0.0 && i <= j < KNOTS
    ensures 0.0 <= Knot(s, base, i) <= Knot(s, base, j) <= 1.0
  {
    hide Quantile;
    hide Round6;
    QuantileEnds(s);
    QuantileMonotone(s, 0, i);
    QuantileMonotone(s, i, j);
    QuotientMonotone(Quantile(s, i), Quantile(s, j), base);
    ScaledBy(Quantile(s, i) / base, Quantile(s, j) / base, Ramp(i), Ramp(j));
    var x, y := Clamp(Quantile(s, i) / base * Ramp(i)), Clamp(Quantile(s, j) / base * Ramp(j));
    RoundFixed();
    RoundMonotone(0.0, x);
    RoundMonotone(x, y);
    RoundMonotone(y, 1.0);
  }

  lemma FirstKnot(s: seq<real>, base: real)
    requires s != [] && 0.0 <= s[0] <= base && base > 0.0
    ensures Knot(s, base, 0) <= 0.72
  {
    hide Quantile;
    hide Round6;
    QuantileEnds(s);
    var q := s[0] / base;
    QuotientMonotone(s[0], base, base);
    DivSplit(base, 1.0, base);
    assert Ramp(0) == 0.72;
    ScaledBy(q, 1.0, 0.72, 0.72);
    RoundFixed();
    RoundMonotone(Clamp(q * 0.72), 0.72);
  }

  lemma LastKnot(s: seq<real>, base: real)
    requires s != [] && 0.0 < base <= s[|s| - 1]
    ensures Knot(s, base, 31) == 1.0
  {
    hide Quantile;
    hide Round6;
    QuantileEnds(s);
    QuotientMonotone(base, s[|s| - 1], base);
    DivSplit(base, 1.0, base);
    assert Ramp(31) == 1.0;
    RoundFixed();
  }

  /** More samples and straighter paths never lower the quality; a dozen straight samples
      reach all of it, none of either reaches nothing. */
  lemma QualityMonotone(n: nat, m: nat, e: real, f: real)
    requires n <= m && e <= f
    ensures Quality(n, e) <= Quality(m, f)
    ensures Quality(12, 1.0) == 100 && Quality(12, 0.0) == Quality(0, 1.0) == Quality(6, 0.5) == 50 && Quality(0, 0.0) == 0
  {
    var a := 50.0 * Min(1.0, n as real / 12.0) + 50.0 * Clamp(e);
    var b := 50.0 * Min(1.0, m as real / 12.0) + 50.0 * Clamp(f);
    assert n as real / 12.0 <= m as real / 12.0;
    assert a <= b;
    assert RoundInt(a) <= RoundInt(b);
    assert (100.5).Floor == 100 && (50.5).Floor == 50 && (0.5).Floor == 0;
  }

  /** The curve of every profile with recorded, non-negative distances: 32 knots in [0,1]
      that never fall, the first at most 0.72, and the last exactly 1 when the mean speed
      reaches the smallest base; the quality is a percentage. */
  lemma CurveLaws(samples: seq<Sample>, efficiency: real, i: nat, j: nat)
    requires samples != [] && NonNegativeSpeeds(samples) && i <= j < KNOTS
    ensures var s, base := Sorted(Speeds(samples)), Base(Speeds(samples));
            && 0.0 <= Knot(s, base, i) <= Knot(s, base, j) <= 1.0
            && Knot(s, base, 0) <= 0.72
            && (Sum(Speeds(samples)) / |samples| as real >= 0.000001 ==> Knot(s, base, 31) == 1.0)
    ensures 0 <= Quality(|samples|, efficiency) <= 100
  {
    hide Knot;
    hide Quantile;
    hide Sorted;
    hide Sum;
    hide Round6;
    var v := Speeds(samples);
    SortedLaws(v);
    SpeedsNonNegative(samples);
    MeanBetween(v);
    KnotStep(Sorted(v), Base(v), i, j);
    FirstKnot(Sorted(v), Base(v));
    if Sum(v) / |v| as real >= 0.000001 {
      LastKnot(Sorted(v), Base(v));
    }
  }

  // ------------------------------------------------------------ two curves worked out

  /** The value x gaps above low. */
  function Above(low: real, gap: real, x: real): real { low + x * gap }

  /** The value f of the way from low to top. */
  function Along(low: real, top: real, f: real): real { low + (top - low) * f }

  predicate Even(s: seq<real>, low: real, gap: real) {
    forall k :: 0 <= k < |s| ==> s[k] == Above(low, gap, k as real)
  }

  /** Speeds at even distances: the i-th knot's speed is i/31 of the way from the slowest to
      the fastest, between the samples too. */
  lemma EvenSpeeds(s: seq<real>, low: real, gap: real, i: nat)
    requires s != [] && i < KNOTS && Even(s, low, gap)
    ensures Quantile(s, i) == Along(s[0], s[|s| - 1], i as real / 31.0)
  {
    hide At;
    hide Quantile;
    var m := |s| - 1;
    QuantileIsAt(s, i);
    EvenAt(s, low, gap, i * m);
    Proportion(m, i, low, gap);
    assert s[0] == Above(low, gap, 0.0);
    hide Above;
    hide Along;
  }

  lemma EvenAt(s: seq<real>, low: real, gap: real, p: nat)
    requires s != [] && p <= 31 * (|s| - 1) && Even(s, low, gap)
    ensures At(s, p) == Above(low, gap, p as real / 31.0)
  {
    var lo, r := p / 31, p % 31;
    var f := r as real / 31.0;
    RemainderReal(p);
    if lo + 1 < |s| {
      assert (lo + 1) as real == lo as real + 1.0;
      OneGap(low, gap, lo as real, f);
    } else {
      assert r == 0 && f == 0.0;
    }
    assert p as real / 31.0 == lo as real + f;
    hide Above;
  }

  lemma OneGap(low: real, gap: real, k: real, f: real)
    ensures Above(low, gap, k) * (1.0 - f) + Above(low, gap, k + 1.0) * f == Above(low, gap, k + f)
  {
  }

  lemma Proportion(m: nat, i: nat, low: real, gap: real)
    ensures Above(low, gap, (i * m) as real / 31.0)
            == Along(Above(low, gap, 0.0), Above(low, gap, m as real), i as real / 31.0)
  {
  }

  /** Recordings of one speed v: the curve is the ramp from 0.72 to 1 alone. */
  lemma SteadySpeeds(samples: seq<Sample>, v: real, i: nat)
    requires samples != [] && v >= 0.000001 && i < KNOTS && forall k :: 0 <= k < |samples| ==> Speed(samples[k]) == v
    ensures Knot(Sorted(Speeds(samples)), Base(Speeds(samples)), i) == Round6((22.32 + 0.28 * i as real) / 31.0)
  {
    hide Round6;
    hide Quantile;
    var s, t := Sorted(Speeds(samples)), Speeds(samples);
    forall k | 0 <= k < |s| ensures s[k] == Above(v, 0.0, k as real) {
      SortedMember(t, k);
    }
    EvenSpeeds(s, v, 0.0, i);
    SumBetween(t, v, v);
    DivSplit(Sum(t), v, |t| as real);
    hide Sum;
    hide Sorted;
    SteadyKnot(s, v, i);
  }

  lemma SteadyKnot(s: seq<real>, v: real, i: nat)
    requires s != [] && v > 0.0 && i < KNOTS && Quantile(s, i) == v
    ensures Knot(s, v, i) == Round6((22.32 + 0.28 * i as real) / 31.0)
  {
    hide Round6;
    hide Quantile;
    DivSplit(v, 1.0, v);
    assert Ramp(i) == (22.32 + 0.28 * i as real) / 31.0;
    assert 0.0 <= Ramp(i) <= 1.0;
  }

  /** A recording shorter than a millisecond counts as one. */
  lemma SpeedExactly(s: Sample)
    ensures Speed(s) * (if s.durationMs <= 1.0 then 1.0 else s.durationMs) == s.distance
  {
  }
}
