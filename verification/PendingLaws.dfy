/** Consequences of the accumulator protocol: exactly which counts a report cannot
    carry, and how fast pending displacement drains. */
module PendingLaws {
  import opened Bytes
  import opened HidLayout
  import opened InjectClock
  import opened PendingProtocol
  import opened PendingConservation
  import HidInvariant
  import opened Wrappers

  // ---------------------------------------------------------------- axes without a field

  predicate CarriesXY(desc: seq<byte>) {
    SelectedLayout(ParseDescriptor(desc)).Some? && SelectedLayout(ParseDescriptor(desc)).value.HasXY()
  }

  predicate CarriesWheel(desc: seq<byte>) {
    SelectedLayout(ParseDescriptor(desc)).Some? && SelectedLayout(ParseDescriptor(desc)).value.wheel.present
  }

  predicate Carries(desc: seq<byte>, a: Axis) {
    if a.W? then CarriesWheel(desc) else CarriesXY(desc)
  }

  /** An accepted post delivers a non-zero step on an axis exactly when the selected
      layout has a field for that axis; otherwise the step is dropped without trace. */
  lemma PostCarries(s: PendingProtocol.State, t: nat, buttons: byte, a: Axis)
    requires Inv(s) && Enabled(s, t, Post(buttons))
    ensures var after, desc := Apply(s, t, Post(buttons)), s.threads[t].role.desc;
            var step := StepVec(s.threads[t].step).At(a);
            if Carries(desc, a)
            then after.book.delivered.At(a) == s.book.delivered.At(a) + step && after.book.noField.At(a) == s.book.noField.At(a)
            else after.book.delivered.At(a) == s.book.delivered.At(a) && after.book.noField.At(a) == s.book.noField.At(a) + step
  {
    hide BuildReport;
    hide Decoded;
    hide Accepted;
    PostDecodes(s.threads[t].role.desc, buttons, s.threads[t].step);
  }

  /** Every tick of the run works with a layout that has a field for this axis. */
  predicate TicksCarry(es: seq<Event>, a: Axis) {
    forall e :: e in es && e.action.Begin? && e.action.role.Tick? ==> Carries(e.action.role.desc, a)
  }

  ghost predicate RoleCarries(l: Local, a: Axis) {
    match l
    case Idle => true
    case Taking(role, _, _, _) => role.Tick? ==> Carries(role.desc, a)
    case Adding(_, _, then_) => then_.Decide? && then_.role.Tick? ==> Carries(then_.role.desc, a)
    case Deciding(role, _) => role.Tick? ==> Carries(role.desc, a)
  }

  ghost predicate AllCarry(s: PendingProtocol.State, a: Axis) {
    s.book.noField.At(a) == 0 && forall t :: 0 <= t < |s.threads| ==> RoleCarries(s.threads[t], a)
  }

  lemma StepCarries(s: PendingProtocol.State, t: nat, act: Action, a: Axis)
    requires Inv(s) && AllCarry(s, a) && Enabled(s, t, act)
    requires act.Begin? && act.role.Tick? ==> Carries(act.role.desc, a)
    ensures AllCarry(Apply(s, t, act), a)
  {
    hide Carries;
    hide RoleOk;
    hide Balanced;
    StepLocal(s, t, act);
    if act.Post? {
      PostCarries(s, t, act.buttons, a);
      hide Decoded;
    }
  }

  lemma {:induction false} RunCarries(s: PendingProtocol.State, es: seq<Event>, a: Axis)
    requires Inv(s) && AllCarry(s, a) && CanRun(s, es) && TicksCarry(es, a)
    ensures AllCarry(Run(s, es), a)
    decreases |es|
  {
    hide Inv;
    hide AllCarry;
    hide Apply;
    hide Enabled;
    hide Carries;
    if es != [] {
      StepCarries(s, es[0].thread, es[0].action, a);
      StepKeepsInv(s, es[0].thread, es[0].action);
      RunCarries(Apply(s, es[0].thread, es[0].action), es[1..], a);
    }
  }

  lemma StartCarries(n: nat, a: Axis)
    ensures AllCarry(Start(n), a)
  {
  }

  /** With a field for the axis in every injected report, the books close without the
      dropped term: commanded = delivered + pending + held + the three discards. */
  lemma ConservationOnCarriedAxis(n: nat, es: seq<Event>, a: Axis)
    requires CanRun(Start(n), es) && TicksCarry(es, a)
    ensures var s := Run(Start(n), es);
            s.book.commanded.At(a) == s.book.delivered.At(a) + s.pending.At(a) + Held(s.threads, a)
                                      + s.book.backlog.At(a) + s.book.overflow.At(a) + s.book.widthCut.At(a)
  {
    hide Inv;
    hide Run;
    hide CanRun;
    hide RoleCarries;
    StartInv(n);
    StartCarries(n, a);
    Conservation(n, es);
    RunCarries(Start(n), es, a);
    var s := Run(Start(n), es);
    assert Balanced(s, a) && AllCarry(s, a) && s.book.lost == ZERO;
  }

  // ---------------------------------------------------------------- draining

  function Min(a: int, b: int): int {
    if a <= b then a else b
  }

  function Abs(v: int): (r: int)
    ensures r >= 0
  {
    if v < 0 then -v else v
  }

  function Signed(v: int, magnitude: int): int {
    if v < 0 then -magnitude else magnitude
  }

  /** What is pending after one tick that posts its step: the rest, through add_pending. */
  function Remaining(p: int, stepMax: int, backlogMax: int): int {
    Saturate(MakeAdd(X, SplitAxis(p, stepMax, backlogMax).rest).delta, PENDING_LIMIT)
  }

  /** Total delivered and still pending after n undisturbed ticks. */
  function Drain(p: int, stepMax: int, backlogMax: int, n: nat): (int, int)
    decreases n
  {
    if n == 0 then (0, p)
    else
      var later := Drain(Remaining(p, stepMax, backlogMax), stepMax, backlogMax, n - 1);
      (SplitAxis(p, stepMax, backlogMax).step + later.0, later.1)
  }

  /** Below the backlog limit nothing is dropped: n ticks deliver n steps' worth. */
  lemma {:induction false} DrainBacklog(p: int, s: int, b: int, n: nat)
    requires s > 0 && 0 <= Abs(p) <= Min(b, MOVE_LIMIT)
    ensures Drain(p, s, b, n) == (Signed(p, Min(Abs(p), n * s)), p - Signed(p, Min(Abs(p), n * s)))
    decreases n
  {
    if n > 0 {
      var q := Remaining(p, s, b);
      SplitLaws(p, s, b);
      assert q == p - SplitAxis(p, s, b).step;
      HidInvariant.OneMore(n, s);
      DrainBacklog(q, s, b, n - 1);
    }
  }

  /** The first tick sends a full step and keeps what the backlog limit allows. */
  lemma FirstTick(p: int, s: int, b: int)
    requires s > 0 && b >= 0
    ensures SplitAxis(p, s, b).step == Signed(p, Min(Abs(p), s))
    ensures Remaining(p, s, b) == Signed(p, Min(Abs(p) - Min(Abs(p), s), Min(b, MOVE_LIMIT)))
    ensures Abs(Remaining(p, s, b)) <= Min(b, MOVE_LIMIT) && Min(b, MOVE_LIMIT) >= 0
  {
  }

  /** The first tick and a later counts from what it left. */
  lemma DrainAdds(p: int, s: int, c: int, a: int)
    requires s > 0 && c >= 0 && a >= 0
    ensures var m, q := Min(Abs(p), s + c), Signed(p, Min(Abs(p) - Min(Abs(p), s), c));
            && Signed(p, Min(Abs(p), s)) + Signed(q, Min(Abs(q), a)) == Signed(p, Min(m, a + s))
            && q - Signed(q, Min(Abs(q), a)) == Signed(p, m - Min(m, a + s))
  {
  }

  /** Draining an undisturbed accumulator: after n >= 1 ticks exactly
      min(|p|, S + B', n * S) counts have gone out in the direction of p, where B' is
      the backlog limit as add_pending lets it through (at most 32767); so it is empty
      after ceil(min(|p|, S + B') / S) ticks and stays empty. */
  lemma DrainLaw(p: int, s: int, b: int, n: nat)
    requires s > 0 && b >= 0 && n >= 1
    ensures var m := Min(Abs(p), s + Min(b, MOVE_LIMIT));
            Drain(p, s, b, n) == (Signed(p, Min(m, n * s)), Signed(p, m - Min(m, n * s)))
  {
    hide Remaining;
    hide SplitAxis;
    hide Min;
    hide Abs;
    hide Signed;
    var q := Remaining(p, s, b);
    FirstTick(p, s, b);
    HidInvariant.OneMore(n, s);
    DrainBacklog(q, s, b, n - 1);
    assert Drain(p, s, b, n) == (SplitAxis(p, s, b).step + Drain(q, s, b, n - 1).0, Drain(q, s, b, n - 1).1);
    DrainAdds(p, s, Min(b, MOVE_LIMIT), (n - 1) * s);
  }

  /** A backlog limit above 32767 is not honoured: this one says 40000, yet only
      32767 of the 40000 left after the first step ever go out. */
  lemma DrainNeedsSmallBacklog()
    ensures Drain(40001, 1, 40000, 50000) == (32768, 0)
  {
    DrainLaw(40001, 1, 40000, 50000);
  }
}
