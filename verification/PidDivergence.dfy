/** Where the output bound ends: with enough prediction a constant error drives the output
    past every bound, for a whole range of parameters that holds the shipped ones. */
module PidDivergence {
  import opened Pid
  import opened PidLaws
  import opened RealArith

  // ------------------------------------------------------------ products

  lemma TimesPositive(x: real, y: real)
    requires x > 0.0 && y > 0.0
    ensures Times(x, y) > 0.0
  {
    ScaleLess(0.0, x, y);
  }

  lemma TimesNonNegative(x: real, y: real)
    requires x >= 0.0 && y >= 0.0
    ensures Times(x, y) >= 0.0
  {
    ProductNonNegative(x, y);
  }

  lemma TimesMinus(x: real, y: real, z: real)
    ensures Times(x, y - z) == Times(x, y) - Times(x, z)
    ensures Times(y - z, x) == Times(y, x) - Times(z, x)
  {
  }

  lemma TimesOne(x: real)
    ensures Times(1.0, x) == x
  {
  }

  lemma TimesAssociates(x: real, y: real, z: real)
    ensures Times(Times(x, y), z) == Times(x, Times(y, z))
  {
  }

  lemma TimesCommute(x: real, y: real)
    ensures Times(x, y) == Times(y, x)
  {
  }

  lemma TimesGrows(x: real, y: real, s: real, t: real)
    requires 0.0 <= x <= y && 0.0 <= s <= t
    ensures 0.0 <= Times(x, s) <= Times(y, t)
  {
    ScaledBy(x, y, s, t);
  }

  lemma QuotientBack(n: real, d: real)
    requires d > 0.0
    ensures Times(n / d, d) == n
  {
  }

  lemma FactorAbove(x: real, y: real, m: real)
    requires m > 0.0 && Times(x, m) > Times(y, m)
    ensures x > y
  {
    TimesMinus(m, x, y);
    PositiveFactor(x - y, m);
  }

  /** Times(d, w) is at most n for w up to the quotient. */
  lemma AtMostQuotient(w: real, n: real, d: real)
    requires d > 0.0 && w <= n / d
    ensures Times(d, w) <= n
  {
    QuotientBack(n, d);
    TimesCommute(n / d, d);
    TimesMinus(d, n / d, w);
    TimesNonNegative(d, n / d - w);
    hide Times;
  }

  // ------------------------------------------------------------ which parameters

  /** What the limiter surely leaves of the integral channel. */
  function Passed(c: Params): real {
    if c.smooth == 0.0 then 1.0 else 0.4
  }

  /** What the proportional channel adds in every frame. */
  function Push(c: Params, e: real): real
    requires Usable(c)
  {
    Limited(c, Times(c.kp, e), c.bandwidth - c.smooth)
  }

  /** Where the two gains settle under an error of e. */
  function IntegralTarget(e: real): real { 1.0 - e / INTEGRAL_GAIN_THRESHOLD }

  function KpTarget(e: real): real { 1.0 - e / KP_GAIN_THRESHOLD }

  /** The gain once round the loop of velocity, integral and output. */
  function LoopGain(c: Params, e: real): real {
    Times(Times(c.predict, IntegralTarget(e)), Times(Passed(c), KpTarget(e)))
  }

  /** The error gets the loop going, and the loop gains. */
  predicate Runaway(c: Params, e: real) {
    && c.bandwidth == BANDWIDTH && 0.0 <= c.smooth <= BANDWIDTH
    && c.kp >= 0.0 && c.kd >= 0.0 && c.predict > 0.0 && 0.0 < c.rate <= 1.0
    && 1.0 <= e < INTEGRAL_GAIN_THRESHOLD
    && Times(Push(c, e), KpTarget(e)) > 0.5
    && LoopGain(c, e) > 1.0
  }

  // ------------------------------------------------------------ frames of a held error

  function Step(c: Params, e: real, s: State): (t: State)
    requires Usable(c) && Ready(s)
    ensures Ready(t)
  {
    UpdatedReady(c, s, e);
    Updated(c, s, e).0
  }

  /** The state after n more frames of the same error. */
  function Held(c: Params, e: real, s: State, n: nat): (t: State)
    requires Usable(c) && Ready(s)
    ensures Ready(t)
    decreases n
  {
    if n == 0 then s else Held(c, e, Step(c, e, s), n - 1)
  }

  lemma {:induction false} HeldOn(c: Params, e: real, s: State, m: nat, n: nat)
    requires Usable(c) && Ready(s)
    ensures Held(c, e, s, m + n) == Held(c, e, Held(c, e, s, m), n)
    decreases m
  {
    hide Step;
    if m > 0 {
      HeldOn(c, e, Step(c, e, s), m - 1, n);
    }
  }

  /** Nothing points the other way, and the error has been seen before. */
  predicate Good(e: real, s: State) {
    && Ready(s) && s.lastError == e
    && 0.0 <= s.kpGain <= 1.0 && 0.0 <= s.integralGain <= 1.0
    && s.velocity.x >= 0.0 && s.integral.x >= 0.0 && s.lastU >= 0.0
  }

  /** What the integral filter is fed. */
  function Fed(c: Params, t: State): real {
    if t.velocity.x > 0.5 then Times(Times(t.velocity.x, c.predict), t.integralGain) else 0.0
  }

  /** One frame of the held error, with the gains of both filters bounded below. */
  predicate Follows(c: Params, e: real, s: State, t: State)
    requires Usable(c)
  {
    && t.integralGain - IntegralTarget(e) == Times(1.0 - INTEGRAL_GAIN_RATE, s.integralGain - IntegralTarget(e))
    && t.kpGain - KpTarget(e) == Times(1.0 - c.rate, s.kpGain - KpTarget(e))
    && 0.0099 <= t.velocity.p < 1.0 && t.velocity.x == s.velocity.x + Times(t.velocity.p, s.lastU - s.velocity.x)
    && 0.33 <= t.integral.p < 1.0 && t.integral.x == s.integral.x + Times(t.integral.p, Fed(c, t) - s.integral.x)
    && t.lastU >= Times(Push(c, e) + Times(Passed(c), t.integral.x), t.kpGain)
  }

  lemma FilterFollows(f: Filter, q: real, m: real, low: real)
    requires f.p >= 0.0 && q > 0.0 && 0.0 <= low < 1.0 && low * (q + 1.0) <= q
    ensures var g := Filtered(f, q, m);
            low <= g.p < 1.0 && g.x == f.x + Times(g.p, m - f.x)
  {
    FilterMovesBetween(f, q, m);
    var p := f.p + q;
    var k := p / (p + 1.0);
    assert k * (p + 1.0) == p;
    assert (1.0 - k) * p == k;
    ProductNonNegative(1.0 - low, f.p);
    assert (k - low) * (p + 1.0) == p - low * (p + 1.0);
    assert p - low * (p + 1.0) == (1.0 - low) * f.p + (q - low * (q + 1.0));
    NonNegativeFactor(k - low, p + 1.0);
  }

  lemma MixNonNegative(x: real, k: real, m: real)
    requires x >= 0.0 && m >= 0.0 && 0.0 <= k <= 1.0
    ensures x + Times(k, m - x) >= 0.0
  {
    ProductNonNegative(1.0 - k, x);
    ProductNonNegative(k, m);
    assert x + k * (m - x) == (1.0 - k) * x + k * m;
  }

  /** The limiter keeps at least four ninths of a positive value. */
  lemma ShapeAtLeast(r: real)
    requires r >= 0.0
    ensures Shape(r) >= 4.0 / 9.0 * r
  {
    var sq := Squared(r);
    var z, d := Shape(r), 1.0 + SOFT_DEN * sq;
    assert z * d == r * (1.0 + SOFT_NUM * sq);
    assert (z - 4.0 / 9.0 * r) * d == z * d - 4.0 / 9.0 * r * d;
    assert 4.0 / 9.0 * r * d == 4.0 / 9.0 * r + SOFT_NUM * (r * sq);
    assert r * (1.0 + SOFT_NUM * sq) == r + SOFT_NUM * (r * sq);
    NonNegativeFactor(z - 4.0 / 9.0 * r, d);
  }

  lemma IntegralPasses(c: Params, v: real)
    requires Usable(c) && c.bandwidth == BANDWIDTH && v >= 0.0
    ensures Limited(c, v, c.bandwidth - 1000.0) >= Times(Passed(c), v)
  {
    hide Shape;
    if c.smooth != 0.0 {
      SmoothTermIsShape(v, BANDWIDTH, 9000.0);
      QuotientNonNegative(v, BANDWIDTH);
      ShapeAtLeast(v / BANDWIDTH);
      var r := v / BANDWIDTH;
      assert r * BANDWIDTH == v;
      ProductNonNegative(Shape(r) - 4.0 / 9.0 * r, 9000.0);
    }
  }

  lemma LimitedNonNegative(c: Params, v: real)
    requires Usable(c) && c.bandwidth == BANDWIDTH && 0.0 <= c.smooth <= BANDWIDTH && v >= 0.0
    ensures Limited(c, v, c.bandwidth - c.smooth) >= 0.0
  {
    hide Shape;
    if c.smooth != 0.0 {
      SmoothTermIsShape(v, BANDWIDTH, BANDWIDTH - c.smooth);
      QuotientNonNegative(v, BANDWIDTH);
      ShapeAtLeast(v / BANDWIDTH);
      ProductNonNegative(Shape(v / BANDWIDTH), BANDWIDTH - c.smooth);
    }
  }

  lemma CommandAtLeast(c: Params, e: real, diff: real, integral: real)
    requires Runaway(c, e) && diff >= 0.0 && integral >= 0.0
    ensures Push(c, e) >= 0.0 && Times(Passed(c), integral) >= 0.0
    ensures Command(c, e, diff, integral) >= Push(c, e) + Times(Passed(c), integral)
  {
    ProductNonNegative(c.kp, e);
    ProductNonNegative(c.kd, diff);
    ProductNonNegative(Passed(c), integral);
    IntegralPasses(c, integral);
    LimitedNonNegative(c, Times(c.kp, e));
    LimitedNonNegative(c, Times(c.kd, diff));
    hide Limited;
    hide Passed;
  }

  lemma GainsFollow(rate: real, e: real, kpGain: real, integralGain: real)
    requires 0.0 <= kpGain <= 1.0 && 0.0 <= integralGain <= 1.0
    requires 0.0 <= rate <= 1.0 && 0.0 <= e < INTEGRAL_GAIN_THRESHOLD
    ensures Adapted(integralGain, e, INTEGRAL_GAIN_THRESHOLD, INTEGRAL_GAIN_RATE) - IntegralTarget(e)
            == Times(1.0 - INTEGRAL_GAIN_RATE, integralGain - IntegralTarget(e))
    ensures Adapted(kpGain, e, KP_GAIN_THRESHOLD, rate) - KpTarget(e) == Times(1.0 - rate, kpGain - KpTarget(e))
  {
    hide Adapted;
    GainAdapts(integralGain, e, INTEGRAL_GAIN_THRESHOLD, INTEGRAL_GAIN_RATE);
    GainAdapts(kpGain, e, KP_GAIN_THRESHOLD, rate);
  }

  lemma FedIs(c: Params, e: real, t: State, lastU: real, diff: real)
    requires t.velocity.x >= 0.0 && 0.0 <= t.integralGain && c.predict >= 0.0 && e >= 1.0
    ensures IntegralInput(c, t.integralGain, e, diff, lastU, t.velocity.x) == Fed(c, t) >= 0.0
  {
    if t.velocity.x > 0.5 {
      ProductNonNegative(t.velocity.x, c.predict);
      ProductNonNegative(Times(t.velocity.x, c.predict), t.integralGain);
    }
  }

  /** A state before the error is held, or while it is. */
  predicate Before(e: real, s: State) {
    s == Cleared() || Good(e, s)
  }

  lemma StepIsTracked(c: Params, e: real, s: State)
    requires Usable(c) && Before(e, s) && Ready(s) && e >= 1.0
    ensures Step(c, e, s) == Tracked(c, s, e).0
  {
    hide Tracked;
  }

  lemma TrackedFollows(c: Params, e: real, s: State)
    requires Usable(c) && Runaway(c, e) && Before(e, s) && Ready(s)
    ensures Good(e, Step(c, e, s)) && (Good(e, s) ==> Follows(c, e, s, Step(c, e, s)))
  {
    var t := Step(c, e, s);
    var diff := e - s.lastError;
    StepIsTracked(c, e, s);
    hide Step;
    hide Updated;
    hide Adapted;
    hide Filtered;
    hide Command;
    hide IntegralInput;
    hide Fed;
    hide Push;
    hide Passed;
    hide Times;
    hide Runaway;
    RunawayBounds(c, e);
    GainsFollow(c.rate, e, s.kpGain, s.integralGain);
    FilterFollows(s.velocity, VELOCITY_Q, diff + s.lastU, 0.0099);
    MixNonNegative(s.velocity.x, t.velocity.p, diff + s.lastU);
    FedIs(c, e, t, s.lastU, diff);
    FilterFollows(s.integral, INTEGRAL_Q, Fed(c, t), 0.33);
    MixNonNegative(s.integral.x, t.integral.p, Fed(c, t));
    CommandAtLeast(c, e, diff, t.integral.x);
    TimesGrows(Push(c, e) + Times(Passed(c), t.integral.x), Command(c, e, diff, t.integral.x), t.kpGain, t.kpGain);
  }

  lemma RunawayBounds(c: Params, e: real)
    requires Runaway(c, e)
    ensures 1.0 <= e < INTEGRAL_GAIN_THRESHOLD && 0.0 < c.rate <= 1.0 && c.predict > 0.0
    ensures 0.0 < IntegralTarget(e) < 1.0 && 0.0 < KpTarget(e) < 1.0 && Push(c, e) > 0.0
  {
    hide Push;
    DivideBySmaller(e, INTEGRAL_GAIN_THRESHOLD);
    DivideBySmaller(e, KP_GAIN_THRESHOLD);
    QuotientPositive(e, INTEGRAL_GAIN_THRESHOLD);
    QuotientPositive(e, KP_GAIN_THRESHOLD);
    PositiveFactor(Push(c, e), KpTarget(e));
  }

  // ------------------------------------------------------------ a way to ride

  /** Gains a little below their targets, the output they surely give, the ratio of integral
      to velocity that the loop keeps, and how much every frame adds. */
  datatype Ride = Ride(integral: real, kp: real, push: real, fed: real, back: real, slant: real, growth: real, rise: real)

  predicate Rides(c: Params, e: real, r: Ride)
    requires Usable(c)
  {
    && 0.0 < r.integral < IntegralTarget(e) && 0.0 < r.kp < KpTarget(e)
    && r.push > 0.5 && Times(Push(c, e), r.kp) == r.push
    && r.fed == Times(c.predict, r.integral) > 0.0 && r.back == Times(Passed(c), r.kp) > 0.0
    && 0.0 < r.slant < r.fed && Times(r.back, r.slant) > 1.0
    && 0.0 < r.growth && r.growth <= 0.0099 * (Times(r.back, r.slant) - 1.0)
    && Times(r.slant, r.growth) <= 0.33 * (r.fed - r.slant)
    && 0.0 < r.rise && r.rise <= Times(INTEGRAL_GAIN_RATE, IntegralTarget(e) - r.integral)
    && r.rise <= Times(c.rate, KpTarget(e) - r.kp) && r.rise <= 0.0099 * (r.push - 0.5) / 2.0
  }

  lemma SquareOfSum(d: real)
    ensures Times(1.0 + d, 1.0 + d) == 1.0 + 2.0 * d + Times(d, d)
  {
  }

  lemma MeanSquareAbove(m: real, a: real)
    requires m > 1.0 && a + a == m + 1.0
    ensures Times(a, a) > m
  {
    SquareOfSum(a - 1.0);
    TimesPositive(a - 1.0, a - 1.0);
    hide Times;
  }

  lemma Keeps(t: real, m: real, x: real)
    requires 0.0 < t && Times(t, m) > 1.0 && m <= x
    ensures Times(t, x) > 1.0
  {
    TimesMinus(t, x, m);
    TimesNonNegative(t, x - m);
    hide Times;
  }

  /** A factor below 1 whose square still leaves m above 1. */
  lemma Shrink(m: real) returns (t: real)
    requires m > 1.0
    ensures 0.0 < t < 1.0 && Times(t, m) > 1.0 && Times(Times(t, t), m) > 1.0
  {
    var a := (m + 1.0) / 2.0;
    t := a / m;
    QuotientPositive(a, m);
    QuotientBack(a, m);
    TimesOne(m);
    FactorAbove(1.0, t, m);
    MeanSquareAbove(m, a);
    TimesAssociates(t, t, m);
    TimesCommute(t, a);
    TimesAssociates(a, t, m);
    hide Times;
    FactorAbove(Times(t, a), 1.0, m);
  }

  lemma ShrinkBoth(x: real, y: real) returns (t: real)
    requires x > 1.0 && y > 1.0
    ensures 0.0 < t < 1.0 && Times(t, x) > 1.0 && Times(Times(t, t), y) > 1.0
  {
    var m := Min(x, y);
    t := Shrink(m);
    TimesPositive(t, t);
    Keeps(t, m, x);
    Keeps(Times(t, t), m, y);
  }

  lemma Regroup(t: real, p: real, i: real, l: real, k: real)
    ensures Times(Times(p, Times(t, i)), Times(l, Times(t, k))) == Times(Times(t, t), Times(Times(p, i), Times(l, k)))
  {
    var x, y := p * i, l * k;
    assert p * (t * i) == t * x && l * (t * k) == t * y;
    assert (t * x) * (t * y) == (t * t) * (x * y);
  }

  lemma BelowOne(t: real, x: real)
    requires 0.0 < t < 1.0 && x > 0.0
    ensures 0.0 < Times(t, x) < x
  {
    TimesPositive(t, x);
    TimesPositive(1.0 - t, x);
    TimesMinus(x, 1.0, t);
    TimesOne(x);
    hide Times;
  }

  /** Strictly between the two: m above the inverse of n. */
  lemma Between(m: real, n: real) returns (b: real)
    requires m > 0.0 && n > 0.0 && Times(m, n) > 1.0
    ensures 0.0 < b < m && Times(n, b) > 1.0
  {
    var inv := 1.0 / n;
    QuotientPositive(1.0, n);
    QuotientBack(1.0, n);
    FactorAbove(m, inv, n);
    b := (m + inv) / 2.0;
    Halfway(n, m, inv);
    TimesCommute(n, m);
    TimesCommute(n, inv);
    hide Times;
  }

  lemma Halfway(n: real, x: real, y: real)
    ensures Times(n, (x + y) / 2.0) == (Times(n, x) + Times(n, y)) / 2.0
  {
  }

  lemma ChooseGains(c: Params, e: real) returns (i: real, k: real)
    requires Usable(c) && Runaway(c, e)
    ensures 0.0 < i < IntegralTarget(e) && 0.0 < k < KpTarget(e)
    ensures Times(Push(c, e), k) > 0.5 && Times(Times(c.predict, i), Times(Passed(c), k)) > 1.0
  {
    RunawayBounds(c, e);
    hide Passed;
    hide Push;
    hide Times;
    hide IntegralTarget;
    hide KpTarget;
    var p, g := Push(c, e), KpTarget(e);
    var v := Times(p, g);
    var t := ShrinkBoth(2.0 * v, LoopGain(c, e));
    i, k := Times(t, IntegralTarget(e)), Times(t, g);
    BelowOne(t, IntegralTarget(e));
    BelowOne(t, g);
    Regroup(t, c.predict, IntegralTarget(e), Passed(c), g);
    TimesCommute(p, k);
    TimesAssociates(t, g, p);
    TimesCommute(g, p);
    Doubled(t, v);
  }

  lemma Doubled(t: real, v: real)
    ensures Times(t, 2.0 * v) == 2.0 * Times(t, v)
  {
  }

  lemma Smallest(a: real, b: real, d: real) returns (m: real)
    requires a > 0.0 && b > 0.0 && d > 0.0
    ensures 0.0 < m && m <= a && m <= b && m <= d
  {
    m := Min(a, Min(b, d));
  }

  lemma ChooseGrowth(fed: real, slant: real, kappa: real) returns (growth: real)
    requires 0.0 < slant < fed && kappa > 1.0
    ensures 0.0 < growth <= 0.0099 * (kappa - 1.0) && Times(slant, growth) <= 0.33 * (fed - slant)
  {
    var room := 0.33 * (fed - slant) / slant;
    QuotientPositive(0.33 * (fed - slant), slant);
    growth := Smallest(0.0099 * (kappa - 1.0), room, 1.0);
    AtMostQuotient(growth, 0.33 * (fed - slant), slant);
  }

  lemma ChooseRide(c: Params, e: real) returns (r: Ride)
    requires Usable(c) && Runaway(c, e)
    ensures Rides(c, e, r)
  {
    RunawayBounds(c, e);
    PassedPositive(c);
    hide Passed;
    hide Push;
    hide Times;
    hide IntegralTarget;
    hide KpTarget;
    var i, k := ChooseGains(c, e);
    var fed, back := Times(c.predict, i), Times(Passed(c), k);
    TimesPositive(c.predict, i);
    TimesPositive(Passed(c), k);
    var slant := Between(fed, back);
    var growth := ChooseGrowth(fed, slant, Times(back, slant));
    var push := Times(Push(c, e), k);
    TimesPositive(c.rate, KpTarget(e) - k);
    TimesPositive(INTEGRAL_GAIN_RATE, IntegralTarget(e) - i);
    var rise := Smallest(Times(INTEGRAL_GAIN_RATE, IntegralTarget(e) - i), Times(c.rate, KpTarget(e) - k),
                         0.0099 * (push - 0.5) / 2.0);
    r := Ride(i, k, push, fed, back, slant, growth, rise);
  }

  // ------------------------------------------------------------ the gains settle

  /** k frames' worth of rise. */
  function Rise(r: Ride, k: nat): real { Times(r.rise, k as real) }

  lemma OneFrameLess(r: Ride, k: nat)
    requires k > 0 && r.rise >= 0.0
    ensures Rise(r, k) == Rise(r, k - 1) + r.rise && Rise(r, k - 1) >= 0.0 && Rise(r, 0) == 0.0
  {
    TimesMinus(r.rise, k as real, 1.0);
    TimesCommute(r.rise, 1.0);
    TimesOne(r.rise);
    TimesNonNegative(r.rise, (k - 1) as real);
  }

  predicate Tuned(e: real, r: Ride, s: State, k: nat) {
    Good(e, s) && s.integralGain >= r.integral - Rise(r, k) && s.kpGain >= r.kp - Rise(r, k)
  }

  lemma GainRises(g: real, t: real, target: real, rate: real, low: real, rise: real)
    requires t - target == Times(1.0 - rate, g - target) && 0.0 < rate <= 1.0 && low < target && rise <= Times(rate, target - low)
    ensures t >= Min(low, g + rise)
  {
    var far := target - low;
    TimesMinus(g - target, 1.0, rate);
    TimesOne(g - target);
    TimesNonNegative(rate, far);
    if g <= low {
      TimesNonNegative(rate, low - g);
      TimesMinus(rate, low - g, -far);
      TimesMinus(rate, 0.0, far);
      TimesMinus(rate, 0.0, target - g);
      hide Times;
    } else {
      TimesNonNegative(1.0 - rate, g - low);
      TimesMinus(g - low, 1.0, rate);
      TimesOne(g - low);
      TimesMinus(rate, g - low, far);
      hide Times;
    }
  }

  lemma StepTuned(c: Params, e: real, r: Ride, s: State, k: nat)
    requires Usable(c) && Runaway(c, e) && Rides(c, e, r) && Tuned(e, r, s, k)
    ensures Tuned(e, r, Step(c, e, s), if k == 0 then 0 else k - 1) && Follows(c, e, s, Step(c, e, s))
  {
    hide Step;
    hide Fed;
    hide Push;
    hide Rise;
    hide Times;
    hide Passed;
    RunawayBounds(c, e);
    TrackedFollows(c, e, s);
    hide Runaway;
    hide IntegralTarget;
    hide KpTarget;
    var t := Step(c, e, s);
    GainRises(s.integralGain, t.integralGain, IntegralTarget(e), INTEGRAL_GAIN_RATE, r.integral, r.rise);
    GainRises(s.kpGain, t.kpGain, KpTarget(e), c.rate, r.kp, r.rise);
    OneFrameLess(r, if k == 0 then 1 else k);
  }

  lemma {:induction false} GainsSettle(c: Params, e: real, r: Ride, s: State, k: nat)
    requires Usable(c) && Runaway(c, e) && Rides(c, e, r) && Tuned(e, r, s, k)
    ensures Tuned(e, r, Held(c, e, s, k), 0)
    decreases k
  {
    hide Step;
    hide Runaway;
    hide Rides;
    hide Rise;
    hide Follows;
    if k > 0 {
      StepTuned(c, e, r, s, k);
      GainsSettle(c, e, r, Step(c, e, s), k - 1);
    }
  }

  /** With settled gains the output is at least the push, and what the integral passes. */
  lemma OutputAtLeast(c: Params, e: real, r: Ride, s: State)
    requires Usable(c) && Runaway(c, e) && Rides(c, e, r) && Tuned(e, r, s, 0)
    ensures var t := Step(c, e, s); t.lastU >= r.push && t.lastU >= Times(r.back, t.integral.x)
  {
    hide Step;
    hide Fed;
    hide Push;
    hide Times;
    hide Passed;
    StepTuned(c, e, r, s, 0);
    RunawayBounds(c, e);
    hide Runaway;
    PassedPositive(c);
    NoRise(r);
    var t := Step(c, e, s);
    OutputParts(Push(c, e), Passed(c), t.integral.x, r.kp, t.kpGain);
  }

  lemma OutputParts(p: real, l: real, x: real, k: real, g: real)
    requires p >= 0.0 && l >= 0.0 && x >= 0.0 && 0.0 <= k <= g
    ensures Times(p + Times(l, x), g) >= Times(p, k)
    ensures Times(p + Times(l, x), g) >= Times(Times(l, k), x)
  {
    var i := Times(l, x);
    TimesNonNegative(l, x);
    TimesGrows(p, p + i, k, g);
    TimesGrows(i, p + i, k, g);
    TimesAssociates(l, x, k);
    TimesAssociates(l, k, x);
    TimesCommute(x, k);
  }

  lemma PassedPositive(c: Params)
    ensures 0.0 < Passed(c) <= 1.0
  {
  }

  // ------------------------------------------------------------ the velocity gets through

  function Brisk(r: Ride): real { (r.push + 0.5) / 2.0 }

  predicate Warm(e: real, r: Ride, s: State, k: nat) {
    Tuned(e, r, s, 0) && s.lastU >= r.push && s.velocity.x >= Brisk(r) - Rise(r, k)
  }

  lemma MixRises(x: real, k: real, m: real, goal: real, rise: real)
    requires 0.0099 <= k < 1.0 && m > goal && 0.0 < rise <= 0.0099 * (m - goal)
    ensures x + Times(k, m - x) >= Min(goal, x + rise)
  {
    if x <= goal {
      TimesGrows(0.0099, k, m - goal, m - x);
    } else {
      TimesNonNegative(1.0 - k, x - goal);
      TimesNonNegative(k, m - goal);
      TimesMinus(x - goal, 1.0, k);
      TimesOne(x - goal);
      TimesMinus(k, m - goal, x - goal);
      hide Times;
    }
  }

  lemma StaysWarm(c: Params, e: real, r: Ride, s: State, k: nat)
    requires Usable(c) && Runaway(c, e) && Rides(c, e, r) && Warm(e, r, s, k)
    ensures Warm(e, r, Step(c, e, s), if k == 0 then 0 else k - 1) && Follows(c, e, s, Step(c, e, s))
  {
    hide Step;
    hide Times;
    hide Fed;
    hide Push;
    hide Rise;
    hide Passed;
    StepTuned(c, e, r, s, 0);
    OutputAtLeast(c, e, r, s);
    hide Runaway;
    OneFrameLess(r, if k == 0 then 1 else k);
    MixRises(s.velocity.x, Step(c, e, s).velocity.p, s.lastU, Brisk(r), r.rise);
  }

  lemma {:induction false} VelocityRises(c: Params, e: real, r: Ride, s: State, k: nat)
    requires Usable(c) && Runaway(c, e) && Rides(c, e, r) && Warm(e, r, s, k)
    ensures Warm(e, r, Held(c, e, s, k), 0)
    decreases k
  {
    hide Step;
    hide Runaway;
    hide Rides;
    hide Rise;
    hide Follows;
    if k > 0 {
      StaysWarm(c, e, r, s, k);
      VelocityRises(c, e, r, Step(c, e, s), k - 1);
    }
  }

  // ------------------------------------------------------------ the feedback runs away

  /** Along this direction of velocity, integral and output every frame gains. */
  predicate Riding(e: real, r: Ride, s: State, w: real) {
    && Warm(e, r, s, 0) && w > 0.0
    && s.velocity.x >= w && s.integral.x >= Times(r.slant, w) && s.lastU >= Times(Times(r.back, r.slant), w)
  }

  function Grown(r: Ride, w: real): real { w + Times(r.growth, w) }

  /** A step from x toward m, seen from a below x and b below m. */
  lemma MixFrom(x: real, k: real, m: real, a: real, b: real)
    requires x >= a && m >= b && 0.0 <= k <= 1.0
    ensures x + Times(k, m - x) >= a + Times(k, b - a)
  {
    TimesNonNegative(1.0 - k, x - a);
    TimesNonNegative(k, m - b);
    TimesMinus(x - a, 1.0, k);
    TimesOne(x - a);
    TimesMinus(k, m - b, x - a);
    TimesMinus(k, m - x, b - a);
    hide Times;
  }

  lemma VelocityGains(v: real, k: real, u: real, w: real, kappa: real, growth: real)
    requires w > 0.0 && v >= w && u >= Times(kappa, w) && 0.0099 <= k < 1.0
    requires kappa > 1.0 && 0.0 < growth <= 0.0099 * (kappa - 1.0)
    ensures v + Times(k, u - v) >= w + Times(growth, w)
  {
    MixFrom(v, k, u, w, Times(kappa, w));
    TimesMinus(w, kappa, 1.0);
    TimesOne(w);
    TimesAssociates(k, kappa - 1.0, w);
    TimesNonNegative(kappa - 1.0, k - 0.0099);
    TimesMinus(kappa - 1.0, k, 0.0099);
    TimesGrows(growth, Times(k, kappa - 1.0), w, w);
  }

  lemma IntegralGains(i: real, k: real, m: real, w: real, slant: real, fed: real, growth: real)
    requires w > 0.0 && i >= Times(slant, w) && m >= Times(fed, w) && 0.33 <= k < 1.0
    requires 0.0 < slant < fed && 0.0 < growth && Times(slant, growth) <= 0.33 * (fed - slant)
    ensures i + Times(k, m - i) >= Times(slant, w + Times(growth, w))
  {
    MixFrom(i, k, m, Times(slant, w), Times(fed, w));
    TimesMinus(w, fed, slant);
    TimesAssociates(k, fed - slant, w);
    TimesNonNegative(fed - slant, k - 0.33);
    TimesMinus(fed - slant, k, 0.33);
    TimesNonNegative(slant, growth);
    TimesGrows(Times(slant, growth), Times(k, fed - slant), w, w);
    TimesAssociates(slant, growth, w);
    TimesMinus(slant, w + Times(growth, w), w);
  }

  lemma FedAtLeast(c: Params, e: real, r: Ride, t: State, w: real)
    requires Usable(c) && Rides(c, e, r) && c.predict > 0.0 && t.velocity.x > 0.5 && t.integralGain >= r.integral
    requires 0.0 <= w <= t.velocity.x
    ensures Fed(c, t) >= Times(r.fed, w)
  {
    hide Push;
    hide Passed;
    TimesGrows(w, t.velocity.x, c.predict, c.predict);
    TimesGrows(Times(w, c.predict), Times(t.velocity.x, c.predict), r.integral, t.integralGain);
    TimesAssociates(w, c.predict, r.integral);
    TimesCommute(w, r.fed);
    hide Times;
  }

  lemma BackAtLeast(back: real, slant: real, w: real, i: real)
    requires back > 0.0 && i >= Times(slant, w)
    ensures Times(back, i) >= Times(Times(back, slant), w)
  {
    TimesNonNegative(back, i - Times(slant, w));
    TimesMinus(back, i, Times(slant, w));
    TimesAssociates(back, slant, w);
    hide Times;
  }

  lemma NoRise(r: Ride)
    ensures Rise(r, 0) == 0.0
  {
  }

  lemma FeedbackGains(c: Params, e: real, r: Ride, s: State, w: real)
    requires Usable(c) && Runaway(c, e) && Rides(c, e, r) && Riding(e, r, s, w)
    ensures Riding(e, r, Step(c, e, s), Grown(r, w)) && Grown(r, w) > w
  {
    hide Step;
    hide Times;
    hide Fed;
    hide Push;
    hide Passed;
    hide Rise;
    var t := Step(c, e, s);
    StaysWarm(c, e, r, s, 0);
    OutputAtLeast(c, e, r, s);
    RunawayBounds(c, e);
    hide Runaway;
    NoRise(r);
    TimesPositive(r.growth, w);
    VelocityGains(s.velocity.x, t.velocity.p, s.lastU, w, Times(r.back, r.slant), r.growth);
    FedAtLeast(c, e, r, t, w);
    IntegralGains(s.integral.x, t.integral.p, Fed(c, t), w, r.slant, r.fed, r.growth);
    BackAtLeast(r.back, r.slant, Grown(r, w), t.integral.x);
  }

  lemma AtLeastOnce(k: real, w: real)
    requires k > 1.0 && w > 0.0
    ensures Times(k, w) >= w && Times(0.0, w) == 0.0
  {
    TimesGrows(1.0, k, w, w);
  }

  lemma {:induction false} OutputClimbs(c: Params, e: real, r: Ride, s: State, w: real, w0: real, n: nat)
    requires Usable(c) && Runaway(c, e) && Rides(c, e, r) && Riding(e, r, s, w) && 0.0 < w0 <= w
    ensures Held(c, e, s, n).lastU >= w + Times(n as real, Times(r.growth, w0))
    decreases n
  {
    hide Step;
    hide Times;
    hide Push;
    hide Passed;
    hide Rise;
    var each := Times(r.growth, w0);
    TimesPositive(r.growth, w0);
    AtLeastOnce(Times(r.back, r.slant), w);
    AtLeastOnce(2.0, each);
    if n > 0 {
      FeedbackGains(c, e, r, s, w);
      hide Runaway;
      OutputClimbs(c, e, r, Step(c, e, s), Grown(r, w), w0, n - 1);
      TimesGrows(r.growth, r.growth, w0, w);
      TimesMinus(each, n as real, 1.0);
      TimesOne(each);
    }
  }

  /** One frame after warming up the ride begins. */
  lemma FirstRide(c: Params, e: real, r: Ride, s: State) returns (w: real)
    requires Usable(c) && Runaway(c, e) && Rides(c, e, r) && Warm(e, r, s, 0)
    ensures Riding(e, r, Step(c, e, s), w)
  {
    hide Step;
    hide Times;
    hide Fed;
    hide Push;
    hide Passed;
    hide Rise;
    var t := Step(c, e, s);
    StaysWarm(c, e, r, s, 0);
    RunawayBounds(c, e);
    hide Runaway;
    NoRise(r);
    FedAtLeast(c, e, r, t, 0.5);
    Half(r.fed);
    var m := 0.165 * r.fed;
    FirstFill(s.integral.x, t.integral.p, Fed(c, t), 0.5 * r.fed);
    var kappa := Times(r.back, r.slant);
    QuotientPositive(m, r.slant);
    QuotientPositive(r.push, kappa);
    w := Smallest(m / r.slant, r.push / kappa, 0.5);
    AtMostQuotient(w, m, r.slant);
    AtMostQuotient(w, r.push, kappa);
  }

  lemma Half(x: real)
    ensures Times(x, 0.5) == 0.5 * x
  {
  }

  lemma FirstFill(i: real, k: real, m: real, low: real)
    requires i >= 0.0 && 0.33 <= k < 1.0 && m >= low >= 0.0
    ensures i + Times(k, m - i) >= 0.33 * low
  {
    MixFrom(i, k, m, 0.0, low);
    TimesGrows(0.33, k, low, low);
  }

  // ------------------------------------------------------------ as a run

  function Frames(e: real, n: nat): (run: seq<Event>)
    ensures |run| == n && forall i :: 0 <= i < n ==> run[i] == Frame(e)
  {
    seq(n, _ => Frame(e))
  }

  lemma {:induction false} LastOutput(c: Params, e: real, s: State, n: nat)
    requires Usable(c) && Ready(s)
    ensures var out := Outputs(c, s, Frames(e, n));
            |out| == n && (n > 0 ==> out[n - 1] == Held(c, e, s, n).lastU)
    decreases n
  {
    hide Updated;
    if n > 0 {
      UpdatedReady(c, s, e);
      assert Frames(e, n)[1..] == Frames(e, n - 1);
      assert Updated(c, s, e).1 == Step(c, e, s).lastU by { OutputIsKept(c, e, s); }
      LastOutput(c, e, Step(c, e, s), n - 1);
    }
  }

  lemma OutputIsKept(c: Params, e: real, s: State)
    requires Usable(c) && Ready(s)
    ensures Updated(c, s, e).1 == Step(c, e, s).lastU
  {
    hide Command;
    hide IntegralInput;
    hide Filtered;
    hide Adapted;
  }

  /** Enough frames for a rise to reach x. */
  lemma Enough(r: Ride, x: real) returns (k: nat)
    requires r.rise > 0.0
    ensures Rise(r, k) >= x
  {
    k := FramesFor(r.rise, x);
  }

  lemma FramesFor(each: real, x: real) returns (k: nat)
    requires each > 0.0
    ensures Times(each, k as real) >= x && Times(k as real, each) >= x
  {
    if x <= 0.0 {
      k := 0;
    } else {
      var q := x / each;
      assert q * each == x;
      PositiveFactor(q, each);
      k := q.Floor + 1;
      ProductNonNegative(each, k as real - q);
      assert each * (k as real - q) == each * (k as real) - q * each;
    }
  }

  lemma RideBegins(c: Params, e: real, r: Ride) returns (m: nat, w: real)
    requires Usable(c) && Runaway(c, e) && Rides(c, e, r)
    ensures m > 0 && Riding(e, r, Held(c, e, Cleared(), m), w)
  {
    hide Step;
    hide Runaway;
    hide Rides;
    hide Rise;
    hide Follows;
    var s := Cleared();
    TrackedFollows(c, e, s);
    var a := Step(c, e, s);
    RidePositive(c, e, r);
    var k := Enough(r, 1.0);
    assert Tuned(e, r, a, k);
    GainsSettle(c, e, r, a, k);
    var b := Held(c, e, a, k);
    StepTuned(c, e, r, b, 0);
    OutputAtLeast(c, e, r, b);
    var d := Step(c, e, b);
    var l := Enough(r, Brisk(r));
    assert Warm(e, r, d, l);
    VelocityRises(c, e, r, d, l);
    var f := Held(c, e, d, l);
    w := FirstRide(c, e, r, f);
    assert Held(c, e, s, 1) == a && Held(c, e, b, 1) == d && Held(c, e, f, 1) == Step(c, e, f);
    HeldOn(c, e, s, 1, k);
    HeldOn(c, e, s, 1 + k, 1);
    HeldOn(c, e, s, 1 + k + 1, l);
    HeldOn(c, e, s, 1 + k + 1 + l, 1);
    m := 1 + k + 1 + l + 1;
  }

  lemma RidePositive(c: Params, e: real, r: Ride)
    requires Usable(c) && Runaway(c, e) && Rides(c, e, r)
    ensures r.rise > 0.0 && r.integral < 1.0 && r.kp < 1.0 && r.growth > 0.0
  {
    RunawayBounds(c, e);
    hide Push;
  }

  /** No bound holds where the loop gains: from a cleared controller, enough frames of the
      constant error make an output that exceeds it. */
  lemma RunsAway(c: Params, e: real, bound: real) returns (n: nat)
    requires Usable(c) && Runaway(c, e)
    ensures n > 0 && var out := Outputs(c, Cleared(), Frames(e, n)); |out| == n && out[n - 1] > bound
  {
    hide Rides;
    hide Runaway;
    var r := ChooseRide(c, e);
    RidePositive(c, e, r);
    var m, w := RideBegins(c, e, r);
    var s := Held(c, e, Cleared(), m);
    assert w > 0.0;
    hide Riding;
    ScaleLess(0.0, r.growth, w);
    var k := FramesFor(Times(r.growth, w), bound);
    OutputClimbs(c, e, r, s, w, w, k);
    HeldOn(c, e, Cleared(), m, k);
    n := m + k;
    LastOutput(c, e, Cleared(), n);
  }

  // ------------------------------------------------------------ the shipped parameters

  /** pid_x_.init(25.0, 25.0, 3.0, 0.3, 9900.0). */
  const SHIPPED: Params := Params(25.0, 25.0, 3.0, 0.3, 9900.0, BANDWIDTH)

  lemma ShapeOfHundredth()
    ensures Shape(0.01) >= 0.0099
  {
    var sq := Squared(0.01);
    assert sq == 0.0001;
    DivideBounds(0.01 * (1.0 + SOFT_NUM * sq), 1.0 + SOFT_DEN * sq, 0.0099, 1.0);
  }

  lemma ShippedIsRunaway()
    ensures Usable(SHIPPED) && Runaway(SHIPPED, 4.0)
  {
    hide Shape;
    SmoothTermAt(100.0, BANDWIDTH, 100.0, 0.01);
    ShapeOfHundredth();
    assert Push(SHIPPED, 4.0) >= 0.99;
    ScaledBy(0.99, Push(SHIPPED, 4.0), 0.99, KpTarget(4.0));
    hide Push;
    assert IntegralTarget(4.0) == 0.92 && KpTarget(4.0) >= 0.99;
    assert Times(3.0, 0.92) == 2.76;
    ScaledBy(0.396, Times(0.4, KpTarget(4.0)), 2.76, 2.76);
  }

  /** So it is with the parameters the X axis is started with, under an error of four
      pixels. */
  lemma ShippedRunsAway(bound: real) returns (n: nat)
    ensures n > 0 && Usable(SHIPPED)
    ensures var out := Outputs(SHIPPED, Cleared(), Frames(4.0, n)); |out| == n && out[n - 1] > bound
  {
    ShippedIsRunaway();
    n := RunsAway(SHIPPED, 4.0, bound);
  }

  /** And without the limiter whenever the prediction outweighs the two gains' shortfall and
      the proportional part alone moves the pointer. */
  lemma UnlimitedRunsAway(c: Params, e: real, bound: real) returns (n: nat)
    requires Usable(c) && c.smooth == 0.0 && c.bandwidth == BANDWIDTH && c.kp >= 0.0 && c.kd >= 0.0 && 0.0 < c.rate <= 1.0
    requires 1.0 <= e < INTEGRAL_GAIN_THRESHOLD
    requires Times(Times(c.kp, e), KpTarget(e)) > 0.5 && Times(Times(c.predict, IntegralTarget(e)), KpTarget(e)) > 1.0
    ensures n > 0 && var out := Outputs(c, Cleared(), Frames(e, n)); |out| == n && out[n - 1] > bound
  {
    assert c.predict > 0.0 by {
      var p := c.predict * IntegralTarget(e);
      PositiveFactor(p, KpTarget(e));
      PositiveFactor(c.predict, IntegralTarget(e));
    }
    n := RunsAway(c, e, bound);
  }
}
