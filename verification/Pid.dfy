/** The one-axis pointer controller, over the reals: gain adaptation, two Kalman filters,
    a soft limiter and feedback of its own last output. */
module Pid {
  import opened RealArith

  const BANDWIDTH: real := 10000.0
  const DEAD_ZONE: real := 0.3
  const RESET_JUMP: real := 30.0
  const KP_GAIN_THRESHOLD: real := 1920.0
  const INTEGRAL_GAIN_THRESHOLD: real := 50.0
  const INTEGRAL_GAIN_RATE: real := 0.025
  const VELOCITY_Q: real := 0.01
  const INTEGRAL_Q: real := 0.5
  const SOFT_NUM: real := 4.0 / 15.0
  const SOFT_DEN: real := 3.0 / 5.0

  datatype Params = Params(kp: real, kd: real, predict: real, rate: real, smooth: real, bandwidth: real)

  datatype Filter = Filter(x: real, p: real)

  datatype State = State(kpGain: real, integralGain: real, lastError: real, lastU: real,
                         velocity: Filter, integral: Filter)

  function ClampUnit(x: real): (r: real)
    ensures 0.0 <= r <= 1.0
  {
    if x < 0.0 then 0.0 else if x > 1.0 then 1.0 else x
  }

  function Squared(x: real): (r: real)
    ensures r >= 0.0
  {
    x * x
  }

  /** A product that the proofs can treat as a value of its own. */
  function Times(x: real, y: real): real { x * y }

  function SmoothTerm(value: real, bandwidth: real, scale: real): real
    requires bandwidth > 0.0
  {
    var ratio := value / bandwidth;
    var sq := Squared(ratio);
    (ratio * (1.0 + SOFT_NUM * sq) / (1.0 + SOFT_DEN * sq)) * scale
  }

  /** adjust_integral and kp_integral: the same adaptation with two thresholds. */
  function Adapted(gain: real, error: real, threshold: real, rate: real): (r: real)
    requires threshold > 0.0
    ensures 0.0 <= r <= 1.0
  {
    var a := Abs(error);
    if a < threshold then ClampUnit(gain + ((1.0 - a / threshold) - gain) * rate)
    else ClampUnit(gain + (threshold / a * gain - gain) * 0.1)
  }

  /** One step of a scalar Kalman filter with process noise q and measurement noise 1. */
  function Filtered(f: Filter, q: real, measurement: real): Filter
    requires f.p >= 0.0 && q > 0.0
  {
    var p := f.p + q;
    var k := p / (p + 1.0);
    Filter(f.x + k * (measurement - f.x), (1.0 - k) * p)
  }

  /** reset(): the filters restart from a variance of zero, not the initial one. */
  function Cleared(): State {
    State(0.0, 0.0, 0.0, 0.0, Filter(0.0, 0.0), Filter(0.0, 0.0))
  }

  predicate Usable(c: Params) {
    (c.bandwidth == 0.0 || c.bandwidth == BANDWIDTH) && (c.smooth != 0.0 ==> c.bandwidth == BANDWIDTH)
  }

  predicate Ready(s: State) {
    s.velocity.p >= 0.0 && s.integral.p >= 0.0
  }

  function DeadZoned(error: real): real {
    if Abs(error) < DEAD_ZONE then 0.0 else error
  }

  function Limited(c: Params, value: real, scale: real): real
    requires Usable(c)
  {
    if c.smooth != 0.0 then SmoothTerm(value, c.bandwidth, scale) else value
  }

  /** The integral channel's measurement, after the velocity filter gave velocity. */
  function IntegralInput(c: Params, gain: real, error: real, diff: real, lastU: real, velocity: real): real {
    var raw := if Abs(error) < 1.0 && Abs(diff) < 0.1 then diff + lastU * 0.5 else velocity;
    Times(Times(if Abs(raw) > 0.5 then raw else 0.0, c.predict), gain)
  }

  /** The three channels, each through the soft limiter when smooth is on. */
  function Command(c: Params, error: real, diff: real, integral: real): real
    requires Usable(c)
  {
    Limited(c, Times(c.kp, error), c.bandwidth - c.smooth)
    + Limited(c, integral, c.bandwidth - 1000.0)
    + Limited(c, Times(c.kd, diff), c.bandwidth - c.smooth)
  }

  /** update() after the dead zone and the jump test. */
  function Tracked(c: Params, s: State, error: real): (State, real)
    requires Usable(c) && Ready(s)
  {
    var integralGain := Adapted(s.integralGain, error, INTEGRAL_GAIN_THRESHOLD, INTEGRAL_GAIN_RATE);
    var kpGain := Adapted(s.kpGain, error, KP_GAIN_THRESHOLD, c.rate);
    var diff := error - s.lastError;
    var velocity := Filtered(s.velocity, VELOCITY_Q, diff + s.lastU);
    var integral := Filtered(s.integral, INTEGRAL_Q, IntegralInput(c, integralGain, error, diff, s.lastU, velocity.x));
    var u := Times(Command(c, error, diff, integral.x), kpGain);
    (State(kpGain, integralGain, error, u, velocity, integral), u)
  }

  function Updated(c: Params, s: State, error0: real): (State, real)
    requires Usable(c) && Ready(s)
  {
    var error := DeadZoned(error0);
    Tracked(c, if Abs(error - s.lastError) > RESET_JUMP then Cleared() else s, error)
  }

  lemma FilteredReady(f: Filter, q: real, m: real)
    requires f.p >= 0.0 && q > 0.0
    ensures Filtered(f, q, m).p >= 0.0
  {
    var p := f.p + q;
    GainBelowOne(p);
    ProductNonNegative(1.0 - p / (p + 1.0), p);
  }

  lemma GainBelowOne(p: real)
    requires p > 0.0
    ensures 0.0 < p / (p + 1.0) < 1.0
  {
    var k := p / (p + 1.0);
    assert k * (p + 1.0) == p;
  }

  /** class Pid1Controller. Fields that the code writes and never reads are left out. */
  class Pid1Controller {
    var kp: real
    var kd: real
    var bandwidth: real
    var smooth: real
    var predict: real
    var kpGainRate: real
    var kpGain: real
    var integralGain: real
    var lastError: real
    var lastU: real
    var velocityX: real
    var velocityP: real
    var integralX: real
    var integralP: real

    function Settings(): Params
      reads this
    {
      Params(kp, kd, predict, kpGainRate, smooth, bandwidth)
    }

    function View(): State
      reads this
    {
      State(kpGain, integralGain, lastError, lastU, Filter(velocityX, velocityP), Filter(integralX, integralP))
    }

    ghost predicate Valid()
      reads this
    {
      Usable(Settings()) && Ready(View())
    }

    constructor ()
      ensures Valid() && Settings() == Start().0 && View() == Start().1
    {
      kp, kd, bandwidth, smooth, predict, kpGainRate := 0.0, 0.0, 0.0, 0.0, 0.0, 0.03;
      kpGain, integralGain, lastError, lastU := 0.0, 0.0, 0.0, 0.0;
      velocityX, velocityP, integralX, integralP := 0.0, 1.0, 0.0, 1.0;
    }

    /** init and configure: both set the parameters and leave the state alone. */
    method Configure(kpIn: real, kdIn: real, predictIn: real, rateIn: real, smoothIn: real)
      requires Valid()
      modifies this
      ensures Valid() && View() == old(View())
      ensures Settings() == Params(kpIn, kdIn, predictIn, rateIn, smoothIn, BANDWIDTH)
    {
      kp, kd, predict, kpGainRate, smooth := kpIn, kdIn, predictIn, rateIn, smoothIn;
      bandwidth := BANDWIDTH;
    }

    method Reset()
      requires Valid()
      modifies this
      ensures Valid() && Settings() == old(Settings()) && View() == Cleared()
    {
      kpGain, integralGain, lastError, lastU := 0.0, 0.0, 0.0, 0.0;
      velocityX, velocityP, integralX, integralP := 0.0, 0.0, 0.0, 0.0;
    }

    method AdjustIntegral(error: real)
      modifies this`integralGain
      ensures integralGain == Adapted(old(integralGain), error, INTEGRAL_GAIN_THRESHOLD, INTEGRAL_GAIN_RATE)
    {
      var a := Abs(error);
      if a < INTEGRAL_GAIN_THRESHOLD {
        var ratio := 1.0 - a / INTEGRAL_GAIN_THRESHOLD;
        integralGain := integralGain + (ratio - integralGain) * INTEGRAL_GAIN_RATE;
      } else {
        var ratio := INTEGRAL_GAIN_THRESHOLD / a;
        integralGain := integralGain + (ratio * integralGain - integralGain) * 0.1;
      }
      integralGain := ClampUnit(integralGain);
    }

    method KpIntegral(error: real)
      modifies this`kpGain
      ensures kpGain == Adapted(old(kpGain), error, KP_GAIN_THRESHOLD, kpGainRate)
    {
      var a := Abs(error);
      if a < KP_GAIN_THRESHOLD {
        var ratio := 1.0 - a / KP_GAIN_THRESHOLD;
        kpGain := kpGain + (ratio - kpGain) * kpGainRate;
      } else {
        var ratio := KP_GAIN_THRESHOLD / a;
        kpGain := kpGain + (ratio * kpGain - kpGain) * 0.1;
      }
      kpGain := ClampUnit(kpGain);
    }

    method UpdateVelocityFilter(measurement: real) returns (x: real)
      requires velocityP >= 0.0
      modifies this`velocityX, this`velocityP
      ensures Filter(velocityX, velocityP) == Filtered(old(Filter(velocityX, velocityP)), VELOCITY_Q, measurement)
      ensures x == velocityX && velocityP >= 0.0
    {
      FilteredReady(Filter(velocityX, velocityP), VELOCITY_Q, measurement);
      var predicted := velocityP + VELOCITY_Q;
      var k := predicted / (predicted + 1.0);
      velocityX := velocityX + k * (measurement - velocityX);
      velocityP := (1.0 - k) * predicted;
      return velocityX;
    }

    method UpdateIntegralFilter(measurement: real) returns (x: real)
      requires integralP >= 0.0
      modifies this`integralX, this`integralP
      ensures Filter(integralX, integralP) == Filtered(old(Filter(integralX, integralP)), INTEGRAL_Q, measurement)
      ensures x == integralX && integralP >= 0.0
    {
      FilteredReady(Filter(integralX, integralP), INTEGRAL_Q, measurement);
      var predicted := integralP + INTEGRAL_Q;
      var k := predicted / (predicted + 1.0);
      integralX := integralX + k * (measurement - integralX);
      integralP := (1.0 - k) * predicted;
      return integralX;
    }

    /** The part of update() that measures the integral channel. */
    method MeasureIntegral(error: real, diff: real, velocity: real) returns (ki: real)
      ensures ki == IntegralInput(Settings(), integralGain, error, diff, lastU, velocity)
    {
      var raw := velocity;
      if Abs(error) < 1.0 && Abs(diff) < 0.1 {
        raw := diff + lastU * 0.5;
      }
      ki := if Abs(raw) > 0.5 then raw else 0.0;
      ki := (ki * predict) * integralGain;
    }

    /** The part of update() that adds up the channels. */
    method Combine(error: real, ki: real) returns (u: real)
      requires Usable(Settings())
      ensures u == Command(Settings(), error, error - lastError, ki)
    {
      var pTerm, iTerm, dTerm := kp * error, ki, kd * (error - lastError);
      if smooth != 0.0 {
        pTerm := SmoothTerm(pTerm, bandwidth, bandwidth - smooth);
        iTerm := SmoothTerm(iTerm, bandwidth, bandwidth - 1000.0);
        dTerm := SmoothTerm(dTerm, bandwidth, bandwidth - smooth);
      }
      u := pTerm + iTerm + dTerm;
    }

    method Update(error0: real) returns (u: real)
      requires Valid()
      modifies this
      ensures Valid() && Settings() == old(Settings())
      ensures (View(), u) == Updated(old(Settings()), old(View()), error0)
    {
      hide Filtered;
      hide Adapted;
      hide Command;
      hide IntegralInput;
      hide Times;
      var error := error0;
      if Abs(error) < DEAD_ZONE { error := 0.0; }
      if Abs(error - lastError) > RESET_JUMP { Reset(); }
      ghost var c, s := Settings(), View();
      assert error == DeadZoned(error0);
      AdjustIntegral(error);
      KpIntegral(error);
      assert kpGain == Adapted(s.kpGain, error, KP_GAIN_THRESHOLD, c.rate);
      var diff := error - lastError;
      var velocity := UpdateVelocityFilter(diff + lastU);
      assert Filter(velocityX, velocityP) == Filtered(s.velocity, VELOCITY_Q, diff + s.lastU);
      var ki := MeasureIntegral(error, diff, velocity);
      assert ki == IntegralInput(c, integralGain, error, diff, s.lastU, velocity);
      ki := UpdateIntegralFilter(ki);
      u := Combine(error, ki);
      assert u == Command(c, error, diff, ki);
      u := Times(u, kpGain);
      lastU := u;
      lastError := error;
      assert View() == Tracked(c,s,error).0;
      assert u == Tracked(c,s,error).1;
    }
  }

  /** A controller as constructed, before its first configuration. */
  function Start(): (Params, State) {
    (Params(0.0, 0.0, 0.0, 0.03, 0.0, 0.0), State(0.0, 0.0, 0.0, 0.0, Filter(0.0, 1.0), Filter(0.0, 1.0)))
  }
}
