/** The soft limiter is odd, strictly increasing and a contraction, the filters are convex
    combinations, and so the controller's output is bounded over every run. */
module PidLaws {
  import opened Pid
  import opened RealArith

  // ------------------------------------------------------------ the soft limiter

  /** The limiter on the normalised value. */
  function Shape(r: real): real {
    var sq := Squared(r);
    r * (1.0 + SOFT_NUM * sq) / (1.0 + SOFT_DEN * sq)
  }

  lemma ShapeOdd(r: real)
    ensures Shape(-r) == -Shape(r)
  {
    var sq := Squared(r);
    assert Squared(-r) == sq;
    var n, d := r * (1.0 + SOFT_NUM * sq), 1.0 + SOFT_DEN * sq;
    assert (-r) * (1.0 + SOFT_NUM * sq) == -n;
    NegDiv(n, d);
  }

  /** The numerator of Shape(s) - Shape(r), divided by s - r. */
  function Slope(r: real, s: real): real {
    1.0 + SOFT_NUM * (Squared(s) + s * r + Squared(r)) - SOFT_DEN * (s * r) + SOFT_NUM * SOFT_DEN * (Squared(s) * Squared(r))
  }

  lemma SlopePositive(r: real, s: real)
    ensures Slope(r, s) > 0.0
    ensures Slope(r, s) <= (1.0 + SOFT_DEN * Squared(s)) * (1.0 + SOFT_DEN * Squared(r))
  {
    var rr, ss, rs := Squared(r), Squared(s), s * r;
    assert Squared(s + r) == ss + 2.0 * rs + rr;
    assert Squared(s - r) == ss - 2.0 * rs + rr;
    ProductNonNegative(ss, rr);
    var w := ss * rr;
    assert (1.0 + SOFT_DEN * ss) * (1.0 + SOFT_DEN * rr) == 1.0 + SOFT_DEN * ss + SOFT_DEN * rr + SOFT_DEN * SOFT_DEN * w;
  }

  function Den(r: real): (d: real)
    ensures d >= 1.0
  {
    1.0 + SOFT_DEN * Squared(r)
  }

  function Num(r: real): real {
    r * (1.0 + SOFT_NUM * Squared(r))
  }

  lemma ProductOfSums(x: real, p: real, q: real)
    ensures (x * (1.0 + p)) * (1.0 + q) == x + x * p + x * q + (x * p) * q
  {
  }

  lemma CubesDiffer(r: real, s: real)
    ensures s * (s * s) - r * (r * r) == (s - r) * (s * s + s * r + r * r)
  {
  }

  lemma MixedDiffer(r: real, s: real)
    ensures s * (r * r) - r * (s * s) == -((s - r) * (s * r))
  {
  }

  lemma FactorsOut(d: real, x: real, y: real, z: real)
    ensures d * (1.0 + SOFT_NUM * x - SOFT_DEN * y + SOFT_NUM * SOFT_DEN * z)
            == d + SOFT_NUM * (d * x) - SOFT_DEN * (d * y) + SOFT_NUM * SOFT_DEN * (d * z)
  {
    var a, b := SOFT_NUM, SOFT_DEN;
    assert d * (a * x) == a * (d * x) && d * (b * y) == b * (d * y) && d * (a * b * z) == a * b * (d * z);
  }

  lemma MovesOut(x: real, v: real, w: real)
    ensures x * (SOFT_NUM * v) == SOFT_NUM * (x * v) && x * (SOFT_DEN * w) == SOFT_DEN * (x * w)
    ensures (x * (SOFT_NUM * v)) * (SOFT_DEN * w) == SOFT_NUM * SOFT_DEN * (x * (v * w))
  {
    var y := x * v;
    assert x * (v * w) == y * w;
    assert (SOFT_NUM * y) * (SOFT_DEN * w) == SOFT_NUM * SOFT_DEN * (y * w);
  }

  lemma CrossDifference(r: real, s: real)
    ensures Num(s) * Den(r) - Num(r) * Den(s) == (s - r) * Slope(r, s)
  {
    var rr, ss := Squared(r), Squared(s);
    ProductOfSums(s, SOFT_NUM * ss, SOFT_DEN * rr);
    ProductOfSums(r, SOFT_NUM * rr, SOFT_DEN * ss);
    MovesOut(s, ss, rr);
    MovesOut(r, rr, ss);
    CubesDiffer(r, s);
    MixedDiffer(r, s);
    var z := ss * rr;
    assert rr * ss == z && (s - r) * z == s * z - r * z;
    FactorsOut(s - r, ss + s * r + rr, s * r, z);
  }

  lemma ShapeTimesDen(r: real)
    ensures Shape(r) * Den(r) == Num(r)
  {
  }

  lemma AtLeastOne(d: real, e: real)
    requires d >= 1.0 && e >= 1.0
    ensures d * e >= 1.0
  {
    ProductNonNegative(d - 1.0, e - 1.0);
    assert (d - 1.0) * (e - 1.0) == d * e - d - e + 1.0;
  }

  lemma RatioBelow(z: real, w: real, h: real, k: real)
    requires 0.0 < k <= w && h > 0.0 && z * w == h * k
    ensures 0.0 < z <= h
  {
    ScaleLess(0.0, h, k);
    PositiveFactor(z, w);
    ProductNonNegative(h, w - k);
    assert (h - z) * w == h * (w - k);
    NonNegativeFactor(h - z, w);
  }

  lemma QuotientsDiffer(x: real, y: real, d: real, e: real, k: real, h: real)
    requires d >= 1.0 && e >= 1.0 && 0.0 < k <= d * e && h > 0.0
    requires (x * d) * e - (y * e) * d == h * k
    ensures 0.0 < x - y <= h
  {
    AtLeastOne(d, e);
    assert (x - y) * (d * e) == (x * d) * e - (y * e) * d;
    RatioBelow(x - y, d * e, h, k);
  }

  /** The limiter grows, and by no more than its argument. */
  lemma ShapeGrows(r: real, s: real)
    requires r < s
    ensures 0.0 < Shape(s) - Shape(r) <= s - r
  {
    hide Slope;
    hide Shape;
    hide Den;
    hide Num;
    SlopeBelow(r, s);
    ShapeTimesDen(r);
    ShapeTimesDen(s);
    CrossDifference(r, s);
    QuotientsDiffer(Shape(s), Shape(r), Den(s), Den(r), Slope(r, s), s - r);
  }

  lemma SlopeBelow(r: real, s: real)
    ensures 0.0 < Slope(r, s) <= Den(s) * Den(r)
  {
    hide Slope;
    SlopePositive(r, s);
  }

  lemma SmoothTermIsShape(v: real, bandwidth: real, scale: real)
    requires bandwidth > 0.0
    ensures SmoothTerm(v, bandwidth, scale) == Shape(v / bandwidth) * scale
  {
  }

  /** smoothTerm is odd. */
  lemma SmoothTermOdd(v: real, bandwidth: real, scale: real)
    requires bandwidth > 0.0
    ensures SmoothTerm(-v, bandwidth, scale) == -SmoothTerm(v, bandwidth, scale)
  {
    hide Shape;
    SmoothTermIsShape(v, bandwidth, scale);
    SmoothTermIsShape(-v, bandwidth, scale);
    NegDiv(v, bandwidth);
    ShapeOdd(v / bandwidth);
    assert (-Shape(v / bandwidth)) * scale == -(Shape(v / bandwidth) * scale);
  }

  lemma QuotientDifference(v: real, w: real, bandwidth: real)
    requires bandwidth > 0.0 && v < w
    ensures v / bandwidth < w / bandwidth
    ensures (w / bandwidth - v / bandwidth) * bandwidth == w - v
  {
    var x, y := v / bandwidth, w / bandwidth;
    assert x * bandwidth == v && y * bandwidth == w;
    assert (y - x) * bandwidth == w - v;
    PositiveFactor(y - x, bandwidth);
  }

  /** smoothTerm is strictly increasing under a positive scale. */
  lemma SmoothTermIncreasing(v: real, w: real, bandwidth: real, scale: real)
    requires bandwidth > 0.0 && scale > 0.0 && v < w
    ensures SmoothTerm(v, bandwidth, scale) < SmoothTerm(w, bandwidth, scale)
  {
    hide Shape;
    SmoothTermIsShape(v, bandwidth, scale);
    SmoothTermIsShape(w, bandwidth, scale);
    QuotientDifference(v, w, bandwidth);
    ShapeGrows(v / bandwidth, w / bandwidth);
    ScaleLess(Shape(v / bandwidth), Shape(w / bandwidth), scale);
  }

  lemma ScaledDifference(x: real, y: real, h: real, s: real, t: real)
    requires 0.0 <= y - x <= h && 0.0 <= s <= t
    ensures 0.0 <= y * s - x * s <= h * t
  {
    ScaledBy(y - x, h, s, t);
    assert (y - x) * s == y * s - x * s;
  }

  lemma ShapeScaled(x: real, y: real, bandwidth: real, scale: real, h: real)
    requires 0.0 <= scale <= bandwidth && x < y && (y - x) * bandwidth == h
    ensures 0.0 <= Shape(y) * scale - Shape(x) * scale <= h
  {
    hide Shape;
    ShapeGrows(x, y);
    ScaledDifference(Shape(x), Shape(y), y - x, scale, bandwidth);
  }

  lemma SmoothTermAt(v: real, bandwidth: real, scale: real, x: real)
    requires bandwidth > 0.0 && x * bandwidth == v
    ensures SmoothTerm(v, bandwidth, scale) == Shape(x) * scale
  {
    hide Shape;
    SmoothTermIsShape(v, bandwidth, scale);
    DivSplit(v, x, bandwidth);
  }

  lemma QuotientTimes(v: real, bandwidth: real)
    requires bandwidth > 0.0
    ensures (v / bandwidth) * bandwidth == v
  {
  }

  lemma ContractsAt(v: real, w: real, bandwidth: real, scale: real, x: real, y: real)
    requires bandwidth > 0.0 && 0.0 <= scale <= bandwidth && v < w && x * bandwidth == v && y * bandwidth == w
    ensures 0.0 <= SmoothTerm(w, bandwidth, scale) - SmoothTerm(v, bandwidth, scale) <= w - v
  {
    hide Shape;
    hide SmoothTerm;
    SmoothTermAt(v, bandwidth, scale, x);
    SmoothTermAt(w, bandwidth, scale, y);
    assert (y - x) * bandwidth == w - v;
    PositiveFactor(y - x, bandwidth);
    ShapeScaled(x, y, bandwidth, scale, w - v);
  }

  /** smoothTerm is a contraction under a scale of at most the bandwidth. */
  lemma SmoothTermContracts(v: real, w: real, bandwidth: real, scale: real)
    requires bandwidth > 0.0 && 0.0 <= scale <= bandwidth && v < w
    ensures 0.0 <= SmoothTerm(w, bandwidth, scale) - SmoothTerm(v, bandwidth, scale) <= w - v
  {
    hide SmoothTerm;
    QuotientTimes(v, bandwidth);
    QuotientTimes(w, bandwidth);
    ContractsAt(v, w, bandwidth, scale, v / bandwidth, w / bandwidth);
  }

  lemma SmoothTermAtZero(bandwidth: real, scale: real)
    requires bandwidth > 0.0
    ensures SmoothTerm(0.0, bandwidth, scale) == 0.0
  {
  }

  lemma SmoothTermShrinks(v: real, bandwidth: real, scale: real)
    requires bandwidth > 0.0 && 0.0 <= scale <= bandwidth
    ensures Abs(SmoothTerm(v, bandwidth, scale)) <= Abs(v)
  {
    hide SmoothTerm;
    SmoothTermAtZero(bandwidth, scale);
    if v > 0.0 {
      SmoothTermContracts(0.0, v, bandwidth, scale);
    } else if v < 0.0 {
      SmoothTermContracts(v, 0.0, bandwidth, scale);
    }
  }

  // ------------------------------------------------------------ the gains and the filters

  lemma DivideByLarger(t: real, a: real)
    requires 0.0 < t <= a
    ensures 0.0 < t / a <= 1.0
  {
    var q := t / a;
    assert q * a == t;
    PositiveFactor(q, a);
    assert (1.0 - q) * a == a - t;
    NonNegativeFactor(1.0 - q, a);
  }

  lemma DivideBySmaller(a: real, t: real)
    requires 0.0 <= a < t
    ensures 0.0 <= a / t < 1.0
  {
    var q := a / t;
    assert q * t == a;
    NonNegativeFactor(q, t);
    assert (1.0 - q) * t == t - a;
    PositiveFactor(1.0 - q, t);
  }

  lemma TowardTarget(gain: real, target: real, rate: real)
    requires 0.0 <= gain <= 1.0 && 0.0 <= target <= 1.0 && 0.0 <= rate <= 1.0
    ensures 0.0 <= gain + (target - gain) * rate <= 1.0
    ensures gain + (target - gain) * rate - target == (1.0 - rate) * (gain - target)
  {
    ProductNonNegative(rate, target);
    ProductNonNegative(1.0 - rate, gain);
    ProductNonNegative(rate, 1.0 - target);
    ProductNonNegative(1.0 - rate, 1.0 - gain);
    assert gain + (target - gain) * rate == rate * target + (1.0 - rate) * gain;
    assert 1.0 - (gain + (target - gain) * rate) == rate * (1.0 - target) + (1.0 - rate) * (1.0 - gain);
  }

  /** Below its threshold a gain closes the fraction `rate` of its distance to
      1 - |e| / threshold, so it rises as the error falls; above it shrinks, by at most a
      tenth a frame. The clamp never acts while the rate is within [0, 1]. */
  lemma GainAdapts(gain: real, error: real, threshold: real, rate: real)
    requires threshold > 0.0 && 0.0 <= gain <= 1.0 && 0.0 <= rate <= 1.0
    ensures var r, a := Adapted(gain, error, threshold, rate), Abs(error);
            if a < threshold
            then r - (1.0 - a / threshold) == (1.0 - rate) * (gain - (1.0 - a / threshold))
            else 0.9 * gain <= r <= gain
  {
    var a := Abs(error);
    if a < threshold {
      DivideBySmaller(a, threshold);
      TowardTarget(gain, 1.0 - a / threshold, rate);
    } else {
      DivideByLarger(threshold, a);
      Shrinks(gain, threshold / a);
    }
  }

  lemma Shrinks(gain: real, ratio: real)
    requires 0.0 <= gain <= 1.0 && 0.0 < ratio <= 1.0
    ensures 0.9 * gain <= gain + (ratio * gain - gain) * 0.1 <= gain
  {
    ProductNonNegative(ratio, gain);
    ProductNonNegative(1.0 - ratio, gain);
    assert (1.0 - ratio) * gain == gain - ratio * gain;
  }

  /** After any step a filter's variance is its Kalman gain, strictly between 0 and 1: the
      new value lies strictly between the old one and the measurement, or they coincide. */
  lemma FilterMovesBetween(f: Filter, q: real, m: real)
    requires f.p >= 0.0 && q > 0.0
    ensures var g := Filtered(f, q, m);
            && 0.0 < g.p < 1.0 && g.x == f.x + g.p * (m - f.x)
            && (f.x < m ==> f.x < g.x < m) && (m < f.x ==> m < g.x < f.x)
  {
    var p := f.p + q;
    GainBelowOne(p);
    var k := p / (p + 1.0);
    assert k * (p + 1.0) == p;
    assert (1.0 - k) * p == k;
    PartOf(k, m - f.x);
  }

  lemma PositivePart(k: real, d: real)
    requires 0.0 < k < 1.0 && d > 0.0
    ensures 0.0 < k * d < d
  {
    ScaleLess(k, 1.0, d);
    ScaleLess(0.0, k, d);
  }

  lemma NegativeProduct(k: real, d: real)
    ensures k * (-d) == -(k * d)
  {
  }

  lemma PartOf(k: real, d: real)
    requires 0.0 < k < 1.0
    ensures d > 0.0 ==> 0.0 < k * d < d
    ensures d < 0.0 ==> d < k * d < 0.0
  {
    if d > 0.0 {
      PositivePart(k, d);
    } else if d < 0.0 {
      PositivePart(k, -d);
      NegativeProduct(k, d);
    }
  }

  // ------------------------------------------------------------ the bound

  /** What the inputs and the parameters stay within during a run. */
  datatype Limits = Limits(error: real, kp: real, kd: real, predict: real)

  predicate Sensible(l: Limits) {
    l.error >= 0.0 && l.kp >= 0.0 && l.kd >= 0.0 && 0.0 <= l.predict < 1.0
  }

  predicate ParamsWithin(l: Limits, c: Params) {
    && Usable(c) && Abs(c.kp) <= l.kp && Abs(c.kd) <= l.kd && Abs(c.predict) <= l.predict
    && 0.0 <= c.smooth <= BANDWIDTH
  }

  /** The largest output without the feedback. */
  function OneFrame(l: Limits): real {
    l.kp * l.error + 2.0 * l.kd * l.error + 2.0 * l.predict * l.error
  }

  /** (P E + 2 D E + 2 p E) / (1 - p). */
  function OutputBound(l: Limits): real
    requires Sensible(l)
  {
    OneFrame(l) / (1.0 - l.predict)
  }

  /** What the filtered velocity, and the integral channel, stay within. */
  function VelocityBound(l: Limits): real
    requires Sensible(l)
  {
    2.0 * l.error + OutputBound(l)
  }

  function IntegralBound(l: Limits): real
    requires Sensible(l)
  {
    Times(l.predict, VelocityBound(l))
  }

  lemma QuotientSolves(n: real, p: real)
    requires n >= 0.0 && 0.0 <= p < 1.0
    ensures n / (1.0 - p) >= 0.0 && n + p * (n / (1.0 - p)) == n / (1.0 - p)
  {
    var u := n / (1.0 - p);
    assert u * (1.0 - p) == n;
    assert u * (1.0 - p) == u - p * u;
    NonNegativeFactor(u, 1.0 - p);
  }

  lemma Distributes(p: real, e: real, u: real)
    ensures p * (2.0 * e + u) == 2.0 * p * e + p * u
    ensures p * (2.0 * e) == 2.0 * p * e
  {
  }

  /** The feedback equation that the bound solves. */
  lemma BoundSolves(l: Limits)
    requires Sensible(l)
    ensures OutputBound(l) >= 0.0 && IntegralBound(l) >= 0.0
    ensures Times(l.kp, l.error) + Times(l.kd, 2.0 * l.error) + IntegralBound(l) == OutputBound(l)
  {
    ProductNonNegative(l.kp, l.error);
    ProductNonNegative(l.kd, l.error);
    ProductNonNegative(l.predict, l.error);
    QuotientSolves(OneFrame(l), l.predict);
    Distributes(l.predict, l.error, OutputBound(l));
    Distributes(l.kd, l.error, 0.0);
    ProductNonNegative(l.predict, VelocityBound(l));
  }

  predicate StateWithin(l: Limits, s: State)
    requires Sensible(l)
  {
    && Ready(s) && Abs(s.lastError) <= l.error && Abs(s.lastU) <= OutputBound(l)
    && Abs(s.velocity.x) <= VelocityBound(l) && Abs(s.integral.x) <= IntegralBound(l)
  }

  lemma ProductAbs(x: real, y: real, a: real, b: real)
    requires Abs(x) <= a && Abs(y) <= b
    ensures Abs(Times(x, y)) <= Times(a, b)
  {
    var u, v := Abs(x), Abs(y);
    ScaledBy(u, a, v, b);
    SignsApart(x, y);
  }

  lemma SignsApart(x: real, y: real)
    ensures Abs(x * y) == Abs(x) * Abs(y)
  {
    ProductNonNegative(Abs(x), Abs(y));
    if x < 0.0 && y < 0.0 {
      assert (-x) * (-y) == x * y;
    } else if x < 0.0 {
      assert (-x) * y == -(x * y);
    } else if y < 0.0 {
      assert x * (-y) == -(x * y);
    }
  }

  lemma TimesUnit(x: real, gain: real, a: real)
    requires Abs(x) <= a && 0.0 <= gain <= 1.0
    ensures Abs(Times(x, gain)) <= a
  {
    ProductAbs(x, gain, a, 1.0);
  }

  lemma TimesCommutes(x: real, y: real)
    ensures Times(x, y) == Times(y, x)
  {
  }

  /** A filter step is a convex combination of its state and the measurement. */
  lemma FilterStaysWithin(f: Filter, q: real, m: real, bound: real)
    requires f.p >= 0.0 && q > 0.0 && Abs(f.x) <= bound && Abs(m) <= bound
    ensures Filtered(f, q, m).p >= 0.0 && Abs(Filtered(f, q, m).x) <= bound
  {
    FilteredReady(f, q, m);
    var p := f.p + q;
    GainBelowOne(p);
    Convex(f.x, m, p / (p + 1.0), bound);
  }

  lemma Convex(x: real, m: real, k: real, bound: real)
    requires 0.0 < k < 1.0 && Abs(x) <= bound && Abs(m) <= bound
    ensures Abs(x + k * (m - x)) <= bound
  {
    ProductNonNegative(k, bound - m);
    ProductNonNegative(k, bound + m);
    ProductNonNegative(1.0 - k, bound - x);
    ProductNonNegative(1.0 - k, bound + x);
    assert k * (bound - m) + (1.0 - k) * (bound - x) == bound - (x + k * (m - x));
    assert k * (bound + m) + (1.0 - k) * (bound + x) == bound + (x + k * (m - x));
  }

  lemma LimitedShrinks(c: Params, v: real, scale: real)
    requires Usable(c) && (c.smooth == 0.0 || 0.0 <= scale <= c.bandwidth)
    ensures Abs(Limited(c, v, scale)) <= Abs(v)
  {
    hide SmoothTerm;
    if c.smooth != 0.0 {
      SmoothTermShrinks(v, c.bandwidth, scale);
    }
  }

  lemma IntegralInputWithin(l: Limits, c: Params, gain: real, error: real, diff: real, lastU: real, velocity: real)
    requires Sensible(l) && 0.0 <= gain <= 1.0 && Abs(c.predict) <= l.predict
    requires Abs(diff) <= 2.0 * l.error && Abs(lastU) <= OutputBound(l) && Abs(velocity) <= VelocityBound(l)
    ensures Abs(IntegralInput(c, gain, error, diff, lastU, velocity)) <= IntegralBound(l)
  {
    hide Times;
    hide OutputBound;
    BoundSolves(l);
    var raw := if Abs(error) < 1.0 && Abs(diff) < 0.1 then diff + lastU * 0.5 else velocity;
    var gated := if Abs(raw) > 0.5 then raw else 0.0;
    ProductAbs(gated, c.predict, VelocityBound(l), l.predict);
    TimesCommutes(VelocityBound(l), l.predict);
    TimesUnit(Times(gated, c.predict), gain, IntegralBound(l));
  }

  lemma CommandWithin(l: Limits, c: Params, error: real, diff: real, integral: real)
    requires Sensible(l) && ParamsWithin(l, c) && Abs(error) <= l.error && Abs(diff) <= 2.0 * l.error
    requires Abs(integral) <= IntegralBound(l)
    ensures Abs(Command(c, error, diff, integral)) <= OutputBound(l)
  {
    hide Times;
    hide OutputBound;
    hide IntegralBound;
    ProductAbs(c.kp, error, l.kp, l.error);
    ProductAbs(c.kd, diff, l.kd, 2.0 * l.error);
    LimitedShrinks(c, Times(c.kp, error), c.bandwidth - c.smooth);
    LimitedShrinks(c, integral, c.bandwidth - 1000.0);
    LimitedShrinks(c, Times(c.kd, diff), c.bandwidth - c.smooth);
    BoundSolves(l);
    hide SmoothTerm;
    hide Limited;
  }

  lemma TrackedWithin(l: Limits, c: Params, s: State, error: real)
    requires Sensible(l) && ParamsWithin(l, c) && StateWithin(l, s) && Abs(error) <= l.error
    ensures StateWithin(l, Tracked(c, s, error).0) && Abs(Tracked(c, s, error).1) <= OutputBound(l)
  {
    hide Times;
    hide OutputBound;
    hide IntegralBound;
    hide Command;
    hide Filtered;
    hide IntegralInput;
    hide Adapted;
    BoundSolves(l);
    var gain := Adapted(s.integralGain, error, INTEGRAL_GAIN_THRESHOLD, INTEGRAL_GAIN_RATE);
    var kpGain := Adapted(s.kpGain, error, KP_GAIN_THRESHOLD, c.rate);
    var diff := error - s.lastError;
    FilterStaysWithin(s.velocity, VELOCITY_Q, diff + s.lastU, VelocityBound(l));
    var velocity := Filtered(s.velocity, VELOCITY_Q, diff + s.lastU);
    IntegralInputWithin(l, c, gain, error, diff, s.lastU, velocity.x);
    var m := IntegralInput(c, gain, error, diff, s.lastU, velocity.x);
    FilterStaysWithin(s.integral, INTEGRAL_Q, m, IntegralBound(l));
    var integral := Filtered(s.integral, INTEGRAL_Q, m);
    CommandWithin(l, c, error, diff, integral.x);
    TimesUnit(Command(c, error, diff, integral.x), kpGain, OutputBound(l));
  }

  /** A fresh controller, configured or not, and a cleared one begin within every bound. */
  lemma StartsWithin(l: Limits)
    requires Sensible(l)
    ensures StateWithin(l, Cleared())
    ensures ParamsWithin(l, Start().0) && StateWithin(l, Start().1)
  {
    hide OutputBound;
    hide IntegralBound;
    BoundSolves(l);
  }

  lemma UpdatedWithin(l: Limits, c: Params, s: State, error: real)
    requires Sensible(l) && ParamsWithin(l, c) && StateWithin(l, s) && Abs(error) <= l.error
    ensures StateWithin(l, Updated(c, s, error).0) && Abs(Updated(c, s, error).1) <= OutputBound(l)
  {
    hide OutputBound;
    hide Tracked;
    hide Cleared;
    hide StateWithin;
    StartsWithin(l);
    ReadyWhenWithin(l, s);
    var e := DeadZoned(error);
    TrackedWithin(l, c, if Abs(e - s.lastError) > RESET_JUMP then Cleared() else s, e);
  }

  lemma ReadyWhenWithin(l: Limits, s: State)
    requires Sensible(l) && StateWithin(l, s)
    ensures Ready(s)
  {
  }

  // ------------------------------------------------------------ runs

  datatype Event =
    | Configure(kp: real, kd: real, predict: real, rate: real, smooth: real)
    | Frame(error: real)
    | Reset

  function Configured(e: Event): Params
    requires e.Configure?
  {
    Params(e.kp, e.kd, e.predict, e.rate, e.smooth, BANDWIDTH)
  }

  predicate EventWithin(l: Limits, e: Event) {
    match e
    case Configure(_, _, _, _, _) => ParamsWithin(l, Configured(e))
    case Frame(error) => Abs(error) <= l.error
    case Reset => true
  }

  /** The outputs of a run, oldest first. */
  function Outputs(c: Params, s: State, run: seq<Event>): seq<real>
    requires Usable(c) && Ready(s)
    decreases |run|
  {
    if run == [] then []
    else
      match run[0]
      case Configure(_, _, _, _, _) => Outputs(Configured(run[0]), s, run[1..])
      case Frame(error) =>
        var (t, u) := Updated(c, s, error);
        UpdatedReady(c, s, error);
        [u] + Outputs(c, t, run[1..])
      case Reset => Outputs(c, Cleared(), run[1..])
  }

  lemma UpdatedReady(c: Params, s: State, error: real)
    requires Usable(c) && Ready(s)
    ensures Ready(Updated(c, s, error).0)
  {
    hide IntegralInput;
    hide Command;
    hide Filtered;
    var e := DeadZoned(error);
    var t := if Abs(e - s.lastError) > RESET_JUMP then Cleared() else s;
    var diff := e - t.lastError;
    FilteredReady(t.velocity, VELOCITY_Q, diff + t.lastU);
    var v := Filtered(t.velocity, VELOCITY_Q, diff + t.lastU);
    var gain := Adapted(t.integralGain, e, INTEGRAL_GAIN_THRESHOLD, INTEGRAL_GAIN_RATE);
    FilteredReady(t.integral, INTEGRAL_Q, IntegralInput(c, gain, e, diff, t.lastU, v.x));
  }

  /** Whatever the errors within E and however the parameters are retuned within P, D, p and
      the smoothing range while the controller runs, no output exceeds
      (P E + 2 D E + 2 p E) / (1 - p). Jump resets are part of every frame, and resets from
      outside may come between frames. The run may begin in any state within the bounds,
      as a fresh or a cleared controller's is. */
  lemma {:induction false} OutputIsBounded(l: Limits, c: Params, s: State, run: seq<Event>)
    requires Sensible(l) && ParamsWithin(l, c) && StateWithin(l, s) && Usable(c) && Ready(s)
    requires forall i :: 0 <= i < |run| ==> EventWithin(l, run[i])
    ensures forall i :: 0 <= i < |Outputs(c, s, run)| ==> Abs(Outputs(c, s, run)[i]) <= OutputBound(l)
    decreases |run|
  {
    hide OutputBound;
    hide Updated;
    hide StateWithin;
    hide Ready;
    if run != [] {
      assert EventWithin(l, run[0]);
      match run[0]
      case Configure(_, _, _, _, _) => OutputIsBounded(l, Configured(run[0]), s, run[1..]);
      case Frame(error) =>
        UpdatedWithin(l, c, s, error);
        UpdatedReady(c, s, error);
        OutputIsBounded(l, c, Updated(c, s, error).0, run[1..]);
      case Reset =>
        StartsWithin(l);
        ReadyWhenWithin(l, Cleared());
        OutputIsBounded(l, c, Cleared(), run[1..]);
    }
  }
}
