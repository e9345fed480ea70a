/** One frame of the controller in equations: what every frame keeps of the state before it,
    and what a jump of the error forgets. */
module PidFrames {
  import opened Pid
  import opened PidLaws
  import opened RealArith

  /** The error the controller works with: zero inside the dead zone. */
  function Seen(error: real): real { if -0.3 < error < 0.3 then 0.0 else error }

  /** The error has moved by more than 30 counts since the last frame. */
  predicate Jumps(s: State, error: real) {
    Seen(error) > s.lastError + 30.0 || Seen(error) < s.lastError - 30.0
  }

  function Within01(x: real): real { if x < 0.0 then 0.0 else if x > 1.0 then 1.0 else x }

  /** Below its threshold a gain is a weighted mean of itself and its target 1 - |e| / threshold;
      from the threshold on it loses a tenth of its share beyond the threshold. */
  function Grown(gain: real, error: real, threshold: real, rate: real): real
    requires threshold > 0.0
  {
    var a := Abs(error);
    Within01(if a < threshold then Times(1.0 - rate, gain) + Times(rate, 1.0 - a / threshold)
             else gain - Times(gain, 1.0 - threshold / a) / 10.0)
  }

  /** A Kalman step with measurement noise 1: the new variance is the share of the old one plus
      q in what the two noises add up to, and the value moves by that share. */
  predicate Weighs(f: Filter, g: Filter, q: real, measurement: real) {
    Times(g.p, f.p + q + 1.0) == f.p + q && g.x == f.x + Times(g.p, measurement - f.x)
  }

  /** What the integral channel measures: small movements do not count. */
  function Measured(predict: real, gain: real, error: real, moved: real, lastU: real, velocity: real): real {
    var raw := if -1.0 < error < 1.0 && -0.1 < moved < 0.1 then moved + lastU / 2.0 else velocity;
    if -0.5 <= raw <= 0.5 then 0.0 else Times(Times(raw, predict), gain)
  }

  /** The channels, with the soft limiter at 10000 counts when smooth is on. */
  function Channels(c: Params, error: real, moved: real, integral: real): real {
    if c.smooth == 0.0 then Times(c.kp, error) + integral + Times(c.kd, moved)
    else SmoothTerm(Times(c.kp, error), 10000.0, 10000.0 - c.smooth) + SmoothTerm(integral, 10000.0, 9000.0)
         + SmoothTerm(Times(c.kd, moved), 10000.0, 10000.0 - c.smooth)
  }

  lemma GrownIsAdapted(gain: real, error: real, threshold: real, rate: real)
    requires threshold > 0.0
    ensures Adapted(gain, error, threshold, rate) == Grown(gain, error, threshold, rate)
  {
    var a := Abs(error);
    if a < threshold {
      Mean(gain, 1.0 - a / threshold, rate);
    } else {
      Loss(gain, threshold / a);
    }
  }

  lemma Mean(gain: real, target: real, rate: real)
    ensures gain + (target - gain) * rate == Times(1.0 - rate, gain) + Times(rate, target)
  {
  }

  lemma Loss(gain: real, ratio: real)
    ensures gain + (ratio * gain - gain) * 0.1 == gain - Times(gain, 1.0 - ratio) / 10.0
  {
  }

  lemma FilteredWeighs(f: Filter, q: real, measurement: real)
    requires f.p >= 0.0 && q > 0.0
    ensures Weighs(f, Filtered(f, q, measurement), q, measurement)
  {
    var p := f.p + q;
    GainBelowOne(p);
    var k := p / (p + 1.0);
    assert k * (p + 1.0) == p;
    assert (1.0 - k) * p == k;
  }

  lemma MeasuredIsInput(c: Params, gain: real, error: real, moved: real, lastU: real, velocity: real)
    ensures IntegralInput(c, gain, error, moved, lastU, velocity) == Measured(c.predict, gain, error, moved, lastU, velocity)
  {
    assert Times(0.0, c.predict) == 0.0 && Times(0.0, gain) == 0.0;
    hide Times;
  }

  lemma ChannelsAreCommand(c: Params, error: real, moved: real, integral: real)
    requires Usable(c)
    ensures Command(c, error, moved, integral) == Channels(c, error, moved, integral)
  {
    hide SmoothTerm;
    hide Times;
  }

  /** A frame after the dead zone and without a jump, or from any state after one. */
  lemma TrackedExactly(c: Params, s: State, error: real)
    requires Usable(c) && Ready(s)
    ensures FrameOf(c, s, error, Tracked(c, s, error).0, Tracked(c, s, error).1)
  {
    hide Adapted;
    hide Filtered;
    hide Command;
    hide IntegralInput;
    hide Times;
    hide Grown;
    hide Weighs;
    hide Measured;
    hide Channels;
    var (n, u) := Tracked(c, s, error);
    var moved := error - s.lastError;
    GrownIsAdapted(s.kpGain, error, 1920.0, c.rate);
    GrownIsAdapted(s.integralGain, error, 50.0, 0.025);
    FilteredWeighs(s.velocity, 0.01, moved + s.lastU);
    MeasuredIsInput(c, n.integralGain, error, moved, s.lastU, n.velocity.x);
    FilteredWeighs(s.integral, 0.5, Measured(c.predict, n.integralGain, error, moved, s.lastU, n.velocity.x));
    ChannelsAreCommand(c, error, moved, n.integral.x);
  }

  /** n and u are what a frame makes of s and the error. */
  ghost predicate FrameOf(c: Params, s: State, error: real, n: State, u: real) {
    var moved := error - s.lastError;
    && n.lastError == error && n.lastU == u
    && n.kpGain == Grown(s.kpGain, error, 1920.0, c.rate)
    && n.integralGain == Grown(s.integralGain, error, 50.0, 0.025)
    && Weighs(s.velocity, n.velocity, 0.01, moved + s.lastU)
    && Weighs(s.integral, n.integral, 0.5, Measured(c.predict, n.integralGain, error, moved, s.lastU, n.velocity.x))
    && u == Times(Channels(c, error, moved, n.integral.x), n.kpGain)
  }

  /** As long as the error moves by no more than 30 a frame, every frame works on the state the
      last one left: gains, filters, last error and last output. */
  lemma FrameExactly(c: Params, s: State, error: real)
    requires Usable(c) && Ready(s) && !Jumps(s, error)
    ensures FrameOf(c, s, Seen(error), Updated(c, s, error).0, Updated(c, s, error).1)
  {
    hide Tracked;
    hide FrameOf;
    TrackedExactly(c, s, Seen(error));
  }

  /** Inside the dead zone every error is answered as zero is, jumps included. */
  lemma DeadZoneIsZero(c: Params, s: State, error: real)
    requires Usable(c) && Ready(s) && -0.3 < error < 0.3
    ensures Updated(c, s, error) == Updated(c, s, 0.0)
  {
    hide Tracked;
  }

  // ------------------------------------------------------------ jumps

  /** What a controller that has forgotten everything answers, in closed form: the gains are
      those one frame grows from zero, the velocity filter starts from zero and takes the whole
      error for a movement, and the integral channel is still. */
  ghost predicate AnswersAfresh(c: Params, error: real, n: State, u: real) {
    var a := Abs(error);
    && n.lastError == error && n.lastU == u
    && n.kpGain == (if a < 1920.0 then Within01(Times(c.rate, 1.0 - a / 1920.0)) else 0.0)
    && n.integralGain == (if a < 50.0 then Times(0.025, 1.0 - a / 50.0) else 0.0)
    && n.velocity == Filter(error / 101.0, 1.0 / 101.0)
    && n.integral == Filter(0.0, 1.0 / 3.0)
    && u == Times(Channels(c, error, error, 0.0), n.kpGain)
  }

  lemma GrownFromNothing(error: real, threshold: real, rate: real)
    requires threshold > 0.0
    ensures Grown(0.0, error, threshold, rate)
            == if Abs(error) < threshold then Within01(Times(rate, 1.0 - Abs(error) / threshold)) else 0.0
  {
  }

  lemma IntegralGainAfresh(error: real)
    ensures Grown(0.0, error, 50.0, 0.025) == if Abs(error) < 50.0 then Times(0.025, 1.0 - Abs(error) / 50.0) else 0.0
  {
    var a := Abs(error);
    GrownFromNothing(error, 50.0, 0.025);
    if a < 50.0 {
      DivideBySmaller(a, 50.0);
    }
  }

  lemma FirstVelocity(g: Filter, error: real)
    requires Weighs(Filter(0.0, 0.0), g, 0.01, error)
    ensures g == Filter(error / 101.0, 1.0 / 101.0)
  {
    assert g.p * 1.01 == 0.01;
    assert g.p == 1.0 / 101.0;
  }

  lemma FirstIntegral(g: Filter)
    requires Weighs(Filter(0.0, 0.0), g, 0.5, 0.0)
    ensures g == Filter(0.0, 1.0 / 3.0)
  {
    assert g.p * 1.5 == 0.5;
    assert g.p == 1.0 / 3.0;
  }

  /** After a reset a movement large enough to be measured comes with no integral gain. */
  lemma NothingMeasured(predict: real, error: real)
    ensures var gain := if Abs(error) < 50.0 then Times(0.025, 1.0 - Abs(error) / 50.0) else 0.0;
            Measured(predict, gain, error, error, 0.0, error / 101.0) == 0.0
  {
    if Abs(error) >= 50.0 {
      assert Times(Times(error / 101.0, predict), 0.0) == 0.0;
    }
    hide Times;
  }

  lemma AfreshFrame(c: Params, error: real, n: State, u: real)
    requires FrameOf(c, Cleared(), error, n, u)
    ensures AnswersAfresh(c, error, n, u)
  {
    var s := Cleared();
    assert error - s.lastError == error && error + s.lastU == error;
    GrownFromNothing(error, 1920.0, c.rate);
    IntegralGainAfresh(error);
    hide Grown;
    FirstVelocity(n.velocity, error);
    hide Weighs;
    NothingMeasured(c.predict, error);
    hide Measured;
    hide Channels;
    hide Times;
    hide Within01;
    IntegralAfresh(c, error, n);
  }

  lemma IntegralAfresh(c: Params, error: real, n: State)
    requires n.velocity == Filter(error / 101.0, 1.0 / 101.0)
    requires n.integralGain == (if Abs(error) < 50.0 then Times(0.025, 1.0 - Abs(error) / 50.0) else 0.0)
    requires Weighs(Filter(0.0, 0.0), n.integral, 0.5, Measured(c.predict, n.integralGain, error, error, 0.0, n.velocity.x))
    ensures n.integral == Filter(0.0, 1.0 / 3.0)
  {
    hide Weighs;
    hide Measured;
    hide Times;
    NothingMeasured(c.predict, error);
    FirstIntegral(n.integral);
  }

  lemma AfreshExactly(c: Params, error: real)
    requires Usable(c)
    ensures AnswersAfresh(c, error, Tracked(c, Cleared(), error).0, Tracked(c, Cleared(), error).1)
  {
    hide Tracked;
    hide FrameOf;
    hide AnswersAfresh;
    TrackedExactly(c, Cleared(), error);
    AfreshFrame(c, error, Tracked(c, Cleared(), error).0, Tracked(c, Cleared(), error).1);
  }

  /** A jump forgets: the answer is the one above, whatever the state was, so it is the same
      for any two states that the error is a jump from. */
  lemma JumpForgets(c: Params, s: State, error: real)
    requires Usable(c) && Ready(s) && Jumps(s, error)
    ensures AnswersAfresh(c, Seen(error), Updated(c, s, error).0, Updated(c, s, error).1)
    ensures forall t :: Ready(t) && Jumps(t, error) ==> Updated(c, t, error) == Updated(c, s, error)
  {
    hide Tracked;
    hide AnswersAfresh;
    AfreshExactly(c, Seen(error));
  }

  /** Tracking with a gain of 0.95, the target switches to an error of 96: the gain falls back
      to 0.0285, and with kp = 1 and nothing else the pointer moves by 2.736, not 91.2. */
  lemma TargetSwitch(s: State)
    requires Ready(s) && s.lastError == 0.0
    ensures var c := Params(1.0, 0.0, 0.0, 0.03, 0.0, 10000.0);
            Updated(c, s, 96.0).0.kpGain == 0.0285 && Updated(c, s, 96.0).1 == 2.736
  {
    var c := Params(1.0, 0.0, 0.0, 0.03, 0.0, 10000.0);
    JumpForgets(c, s, 96.0);
    var n := Updated(c, s, 96.0).0;
    hide Updated;
    SwitchNumbers(n, n.lastU);
  }

  lemma SwitchNumbers(n: State, u: real)
    requires AnswersAfresh(Params(1.0, 0.0, 0.0, 0.03, 0.0, 10000.0), 96.0, n, u)
    ensures n.kpGain == 0.0285 && u == 2.736
  {
    assert 1.0 - 96.0 / 1920.0 == 0.95;
    assert Times(0.03, 0.95) == 0.0285;
    assert Times(1.0, 96.0) == 96.0 && Times(0.0, 96.0) == 0.0;
    assert Times(96.0, 0.0285) == 2.736;
    hide Times;
    hide SmoothTerm;
  }

  /** Two points fix the limiter's curve: at the bandwidth it passes 19/24 of the scale, at
      twice the bandwidth 62/51. */
  lemma LimiterPoints(bandwidth: real, scale: real)
    requires bandwidth > 0.0
    ensures SmoothTerm(bandwidth, bandwidth, scale) == 19.0 / 24.0 * scale
    ensures SmoothTerm(2.0 * bandwidth, bandwidth, scale) == 62.0 / 51.0 * scale
  {
    assert bandwidth / bandwidth == 1.0;
    assert 2.0 * bandwidth / bandwidth == 2.0;
    assert Squared(1.0) == 1.0 && Squared(2.0) == 4.0;
  }
}
