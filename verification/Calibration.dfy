/** Deriving controller parameters from what a calibration measured, and the output bound
    that every derived controller has. */
module Calibration {
  import opened Pid
  import opened PidLaws
  import opened RealArith

  const KP_FRACTION_PER_FRAME: real := 0.07
  const KD_RATIO_BASE: real := 1.0
  const KD_RATIO_DELAY_DIV: real := 25.0
  const KP_EFF_MIN: real := 0.04
  const KP_NOMINAL_MAX: real := 60.0

  datatype Gains = Gains(kp: real, kd: real, predict: real)

  datatype Derived = Ok(gains: Gains) | Refused

  /** derive_pid_params before rounding; Refused stands for its ValueError. */
  function Derive(gainX: real, gainY: real, delayMs: real, smooth: real, bandwidth: real): Derived {
    if gainX <= 0.0 || gainY <= 0.0 then Refused
    else if !(0.0 <= smooth < bandwidth) then Refused
    else
      var gain := Min(gainX, gainY);
      var delay := Max(0.0, delayMs);
      var kpScale := Max((bandwidth - smooth) / bandwidth, 0.002);
      var eff0 := KP_FRACTION_PER_FRAME / gain;
      var eff1 := if gain >= 1.2 && delay >= 50.0 then eff0 * 0.4 else eff0;
      var eff := Max(KP_EFF_MIN, eff1);
      var kp := Min(KP_NOMINAL_MAX, eff / kpScale);
      var kd := Max(4.0, Min(50.0, kp * (KD_RATIO_BASE + delay / KD_RATIO_DELAY_DIV)));
      var predict := Max(0.1, Min(0.35, 0.35 - delay / 300.0));
      Ok(Gains(kp, kd, predict))
  }

  predicate IsMultiple(r: real, per: int, n: int) {
    r * per as real == n as real
  }

  /** r is x rounded to a multiple of 1/per: a multiple, and no other is nearer. Ties may go
      either way. */
  ghost predicate Rounds(x: real, per: int, r: real)
    requires per > 0
  {
    Abs(r - x) * (2 * per) as real <= 1.0 && exists n :: IsMultiple(r, per, n)
  }

  /** The dictionary that is returned: two decimals for the gains, three for predict. */
  ghost predicate Returned(g: Gains, r: Gains) {
    Rounds(g.kp, 100, r.kp) && Rounds(g.kd, 100, r.kd) && Rounds(g.predict, 1000, r.predict)
  }

  /** Rounding keeps a value between two multiples between them. */
  lemma RoundsWithin(x: real, per: int, r: real, lo: int, hi: int)
    requires per > 0 && Rounds(x, per, r) && lo as real <= x * per as real <= hi as real
    ensures lo as real <= r * per as real <= hi as real
  {
    var q := per as real;
    var n :| IsMultiple(r, per, n);
    assert Abs(r - x) * (2.0 * q) <= 1.0;
    NearMultiple(x, q, r);
    assert n as real >= lo as real - 0.5;
    assert n as real <= hi as real + 0.5;
    assert n >= lo && n <= hi;
  }

  lemma NearMultiple(x: real, q: real, r: real)
    requires q > 0.0 && Abs(r - x) * (2.0 * q) <= 1.0
    ensures x * q - 0.5 <= r * q <= x * q + 0.5
  {
    var a := Abs(r - x);
    assert a * (2.0 * q) == 2.0 * (a * q);
    ScaledBy(0.0, a - (r - x), 0.0, q);
    ScaledBy(0.0, a + (r - x), 0.0, q);
    assert (a - (r - x)) * q == a * q - (r * q - x * q);
    assert (a + (r - x)) * q == a * q + (r * q - x * q);
  }

  /** Every parameter set that calibration hands out lies in the ranges the controller's
      bound is proved for, rounding included; it refuses exactly the measurements and the
      smoothing that its documentation rules out. */
  lemma DerivedInRange(gainX: real, gainY: real, delayMs: real, smooth: real, bandwidth: real)
    ensures Derive(gainX, gainY, delayMs, smooth, bandwidth).Ok? <==> gainX > 0.0 && gainY > 0.0 && 0.0 <= smooth < bandwidth
    ensures forall r :: Derive(gainX, gainY, delayMs, smooth, bandwidth).Ok?
              && Returned(Derive(gainX, gainY, delayMs, smooth, bandwidth).gains, r)
              ==> 0.0 <= r.kp <= 60.0 && 4.0 <= r.kd <= 50.0 && 0.1 <= r.predict <= 0.35
  {
    var d := Derive(gainX, gainY, delayMs, smooth, bandwidth);
    if d.Ok? {
      KpPositive(gainX, gainY, delayMs, smooth, bandwidth);
      forall r | Returned(d.gains, r)
        ensures 0.0 <= r.kp <= 60.0 && 4.0 <= r.kd <= 50.0 && 0.1 <= r.predict <= 0.35
      {
        hide Derive;
        RoundsWithin(d.gains.kp, 100, r.kp, 0, 6000);
        RoundsWithin(d.gains.kd, 100, r.kd, 400, 5000);
        RoundsWithin(d.gains.predict, 1000, r.predict, 100, 350);
      }
    }
  }

  lemma KpPositive(gainX: real, gainY: real, delayMs: real, smooth: real, bandwidth: real)
    requires gainX > 0.0 && gainY > 0.0 && 0.0 <= smooth < bandwidth
    ensures Derive(gainX, gainY, delayMs, smooth, bandwidth).Ok?
    ensures var g := Derive(gainX, gainY, delayMs, smooth, bandwidth).gains;
            0.0 < g.kp <= 60.0 && 4.0 <= g.kd <= 50.0 && 0.1 <= g.predict <= 0.35
  {
    var gain := Min(gainX, gainY);
    var kpScale := Max((bandwidth - smooth) / bandwidth, 0.002);
    var eff0 := KP_FRACTION_PER_FRAME / gain;
    var eff := Max(KP_EFF_MIN, if gain >= 1.2 && Max(0.0, delayMs) >= 50.0 then eff0 * 0.4 else eff0);
    QuotientPositive(eff, kpScale);
  }

  // ------------------------------------------------------------ which measurement decides

  /** The smaller gain decides alone, so it does not matter which axis had it. */
  lemma SmallerGainDecides(gainX: real, gainY: real, delayMs: real, smooth: real, bandwidth: real)
    ensures Derive(gainX, gainY, delayMs, smooth, bandwidth) == Derive(gainY, gainX, delayMs, smooth, bandwidth)
    ensures gainX <= gainY ==>
              Derive(gainX, gainY, delayMs, smooth, bandwidth) == Derive(gainX, gainX, delayMs, smooth, bandwidth)
  {
  }

  lemma SmallerQuotient(n: real, a: real, b: real)
    requires n >= 0.0 && 0.0 < a <= b
    ensures 0.0 <= n / b <= n / a
  {
    var q, r := n / a, n / b;
    assert q * a == n && r * b == n;
    QuotientNonNegative(n, b);
    ProductNonNegative(r, b - a);
    assert (q - r) * a == r * (b - a);
    NonNegativeFactor(q - r, a);
  }

  /** kp before its two clamps, by the smaller gain. */
  function Effective(gain: real, delay: real): real
    requires gain > 0.0
  {
    Max(0.04, if gain >= 1.2 && delay >= 50.0 then 0.07 / gain * 0.4 else 0.07 / gain)
  }

  lemma EffectiveFalls(gain: real, more: real, delay: real)
    requires 0.0 < gain <= more
    ensures 0.0 < Effective(more, delay) <= Effective(gain, delay)
  {
    SmallerQuotient(0.07, gain, more);
  }

  lemma DeriveByEffective(gainX: real, gainY: real, delayMs: real, smooth: real, bandwidth: real)
    requires gainX > 0.0 && gainY > 0.0 && 0.0 <= smooth < bandwidth
    ensures var scale := Max((bandwidth - smooth) / bandwidth, 0.002);
            var kp := Min(60.0, Effective(Min(gainX, gainY), Max(0.0, delayMs)) / scale);
            && Derive(gainX, gainY, delayMs, smooth, bandwidth).Ok?
            && Derive(gainX, gainY, delayMs, smooth, bandwidth).gains.kp == kp
            && Derive(gainX, gainY, delayMs, smooth, bandwidth).gains.kd
               == Max(4.0, Min(50.0, Times(kp, 1.0 + Max(0.0, delayMs) / 25.0)))
  {
  }

  /** A pointer that moves further per count never gets the larger kp or kd: neither rises when
      either gain rises, and predict depends on the delay alone. */
  lemma GainsNeverRaise(gainX: real, gainY: real, moreX: real, moreY: real, delayMs: real, smooth: real, bandwidth: real)
    requires 0.0 < gainX <= moreX && 0.0 < gainY <= moreY && 0.0 <= smooth < bandwidth
    ensures var d, e := Derive(gainX, gainY, delayMs, smooth, bandwidth), Derive(moreX, moreY, delayMs, smooth, bandwidth);
            d.Ok? && e.Ok? && e.gains.kp <= d.gains.kp && e.gains.kd <= d.gains.kd && e.gains.predict == d.gains.predict
  {
    var gain, more, delay := Min(gainX, gainY), Min(moreX, moreY), Max(0.0, delayMs);
    var scale := Max((bandwidth - smooth) / bandwidth, 0.002);
    EffectiveFalls(gain, more, delay);
    QuotientMonotone(Effective(more, delay), Effective(gain, delay), scale);
    DeriveByEffective(gainX, gainY, delayMs, smooth, bandwidth);
    DeriveByEffective(moreX, moreY, delayMs, smooth, bandwidth);
    SamePredict(gainX, gainY, moreX, moreY, delayMs, smooth, bandwidth);
    var kp := Min(60.0, Effective(gain, delay) / scale);
    var less := Min(60.0, Effective(more, delay) / scale);
    hide Derive;
    hide Effective;
    ScaledByFactor(less, kp, 1.0 + delay / 25.0);
  }

  lemma SamePredict(gainX: real, gainY: real, moreX: real, moreY: real, delayMs: real, smooth: real, bandwidth: real)
    requires 0.0 < gainX && 0.0 < gainY && 0.0 < moreX && 0.0 < moreY && 0.0 <= smooth < bandwidth
    ensures var d, e := Derive(gainX, gainY, delayMs, smooth, bandwidth), Derive(moreX, moreY, delayMs, smooth, bandwidth);
            d.Ok? && e.Ok? && e.gains.predict == d.gains.predict
  {
  }

  lemma ScaledByFactor(x: real, y: real, f: real)
    requires x <= y && f >= 1.0
    ensures Times(x, f) <= Times(y, f)
  {
    ProductNonNegative(y - x, f);
  }

  /** Three calibrations worked out: a slow pointer without smoothing; the same with the
      smoothing at its limit, where kp is scaled up 500-fold; and a fast one that lags. */
  lemma WorkedOut()
    ensures Derive(1.0, 2.0, 0.0, 0.0, 10000.0) == Ok(Gains(0.07, 4.0, 0.35))
    ensures Derive(1.0, 2.0, 12.0, 9990.0, 10000.0) == Ok(Gains(35.0, 50.0, 0.31))
    ensures Derive(1.4, 2.8, 50.0, 9900.0, 10000.0) == Ok(Gains(4.0, 12.0, 0.35 - 50.0 / 300.0))
  {
    assert 0.07 / 1.0 == 0.07 && 0.07 / 1.4 == 0.05;
    assert (10000.0 - 0.0) / 10000.0 == 1.0 && (10000.0 - 9990.0) / 10000.0 == 0.001;
    assert (10000.0 - 9900.0) / 10000.0 == 0.01 && 0.07 / 0.002 == 35.0 && 0.04 / 0.01 == 4.0;
  }

  /** A configuration that some calibration handed out for the smoothing in force. */
  ghost predicate FromCalibration(e: Event) {
    e.Configure? && exists gainX, gainY, delayMs ::
      && Derive(gainX, gainY, delayMs, e.smooth, BANDWIDTH).Ok?
      && Returned(Derive(gainX, gainY, delayMs, e.smooth, BANDWIDTH).gains, Gains(e.kp, e.kd, e.predict))
  }

  lemma CalibratedWithin(e: Event, maxError: real)
    ensures FromCalibration(e) ==> EventWithin(CalibratedLimits(maxError), e)
  {
    hide Derive;
    hide Returned;
    if FromCalibration(e) {
      var gainX, gainY, delayMs :|
        && Derive(gainX, gainY, delayMs, e.smooth, BANDWIDTH).Ok?
        && Returned(Derive(gainX, gainY, delayMs, e.smooth, BANDWIDTH).gains, Gains(e.kp, e.kd, e.predict));
      DerivedInRange(gainX, gainY, delayMs, e.smooth, BANDWIDTH);
    }
  }

  function CalibratedLimits(maxError: real): Limits {
    Limits(maxError, 60.0, 50.0, 0.35)
  }

  /** A controller that is only ever configured from calibrations, any number of times and
      for any measurements, and reset at any time, never answers errors within E with more than 160.7 E / 0.65,
      about 247 times the error. It may start fresh or in any state within the bounds. */
  lemma CalibratedOutputIsBounded(maxError: real, c: Params, s: State, run: seq<Event>)
    requires maxError >= 0.0 && ParamsWithin(CalibratedLimits(maxError), c) && StateWithin(CalibratedLimits(maxError), s)
    requires Ready(s) && Usable(c)
    requires forall i :: 0 <= i < |run| ==>
               FromCalibration(run[i]) || run[i].Reset? || (run[i].Frame? && Abs(run[i].error) <= maxError)
    ensures forall i :: 0 <= i < |Outputs(c, s, run)| ==> Abs(Outputs(c, s, run)[i]) <= 160.7 * maxError / 0.65
  {
    hide Outputs;
    hide FromCalibration;
    hide StateWithin;
    var l := CalibratedLimits(maxError);
    forall i | 0 <= i < |run| ensures EventWithin(l, run[i]) {
      CalibratedWithin(run[i], maxError);
    }
    OutputIsBounded(l, c, s, run);
    assert OutputBound(l) == 160.7 * maxError / 0.65;
  }
}
