/** The books of the accumulator protocol: what each kind of step does to them, and the
    conservation law over every run. */
module PendingConservation {
  import opened Bytes
  import opened HidLayout
  import opened HidInvariant
  import opened HidCodec
  import opened InjectClock
  import opened ReportRoundTrip
  import opened MergeReport
  import opened PendingProtocol
  import opened Wrappers

  // ---------------------------------------------------------------- what threads hold

  function SumAdds(todo: seq<Add>, a: Axis): int {
    if todo == [] then 0 else (if todo[0].axis == a then todo[0].delta else 0) + SumAdds(todo[1..], a)
  }

  /** Displacement in a thread's hands: taken or commanded, not yet back or delivered. */
  function HeldBy(l: Local, a: Axis): int {
    match l
    case Idle => 0
    case Taking(_, x, y, w) => (match a case X => x case Y => y case W => w).GetOr(0)
    case Adding(todo, _, then_) => SumAdds(todo, a) + if then_.Done? then 0 else StepVec(then_.step).At(a)
    case Deciding(_, st) => StepVec(st).At(a)
  }

  function Held(ts: seq<Local>, a: Axis): int {
    if ts == [] then 0 else HeldBy(ts[0], a) + Held(ts[1..], a)
  }

  function Accounted(b: Ledger, a: Axis): int {
    b.delivered.At(a) + b.backlog.At(a) + b.overflow.At(a) + b.widthCut.At(a) + b.noField.At(a) + b.lost.At(a)
  }

  /** The conservation law on one axis. */
  predicate Balanced(s: PendingProtocol.State, a: Axis) {
    s.book.commanded.At(a) == s.pending.At(a) + Held(s.threads, a) + Accounted(s.book, a)
  }

  predicate StepOk(st: InjectStep) {
    -96 <= st.x.step <= 96 && -96 <= st.y.step <= 96 && -1 <= st.wheel.step <= 1
  }

  ghost predicate LocalOk(l: Local) {
    match l
    case Idle => true
    case Taking(role, _, _, _) => RoleOk(role)
    case Adding(_, _, then_) => then_.Decide? ==> RoleOk(then_.role) && StepOk(then_.step)
    case Deciding(role, st) => RoleOk(role) && StepOk(st)
  }

  ghost predicate LocalsOk(s: PendingProtocol.State) {
    forall t :: 0 <= t < |s.threads| ==> LocalOk(s.threads[t])
  }

  predicate InLimits(s: PendingProtocol.State) {
    && -PENDING_LIMIT <= s.pending.x <= PENDING_LIMIT
    && -PENDING_LIMIT <= s.pending.y <= PENDING_LIMIT
    && -PENDING_LIMIT <= s.pending.w <= PENDING_LIMIT
  }

  ghost predicate Inv(s: PendingProtocol.State) {
    && LocalsOk(s)
    && s.book.lost == ZERO
    && InLimits(s)
    && forall a: Axis :: Balanced(s, a)
  }

  lemma {:induction false} HeldUpdate(ts: seq<Local>, t: nat, l: Local, a: Axis)
    requires t < |ts|
    ensures Held(ts[t := l], a) == Held(ts, a) - HeldBy(ts[t], a) + HeldBy(l, a)
    decreases |ts|
  {
    hide HeldBy;
    if t == 0 {
      assert ts[0 := l][1..] == ts[1..];
    } else {
      assert ts[t := l][1..] == ts[1..][t - 1 := l];
      HeldUpdate(ts[1..], t - 1, l, a);
    }
  }

  lemma SumThree(a: Add, b: Add, c: Add, on: Axis)
    ensures SumAdds([], on) == 0
    ensures SumAdds([a], on) == if a.axis == on then a.delta else 0
    ensures SumAdds([a, b, c], on) == SumAdds([a], on) + SumAdds([b], on) + SumAdds([c], on)
  {
    assert [a][1..] == [] && [b][1..] == [];
    assert [a, b, c][1..] == [b, c] && [b, c][1..] == [c] && [c][1..] == [];
  }

  lemma {:induction false} SumAppend(p: seq<Add>, q: seq<Add>, on: Axis)
    ensures SumAdds(p + q, on) == SumAdds(p, on) + SumAdds(q, on)
  {
    if p == [] {
      assert p + q == q;
    } else {
      assert (p + q)[1..] == p[1..] + q;
      SumAppend(p[1..], q, on);
    }
  }

  /** With the default limits every carried-over rest is small enough to go back whole. */
  lemma RestSum(dx: int, dy: int, w: int, on: Axis)
    ensures var st := Plan(DEFAULT_CONFIG, dx, dy, w);
            && StepOk(st)
            && SumAdds(RestAdds(st), on) == Vec(st.x.rest, st.y.rest, st.wheel.rest).At(on)
            && Vec(dx, dy, w).At(on) == StepVec(st).At(on) + Vec(st.x.rest, st.y.rest, st.wheel.rest).At(on)
                                        + Vec(st.x.dropped, st.y.dropped, st.wheel.dropped).At(on)
  {
    var st := Plan(DEFAULT_CONFIG, dx, dy, w);
    SplitLaws(dx, 96, 768);
    SplitLaws(dy, 96, 768);
    SplitLaws(w, 1, 1);
    var a, b, c := MakeAdd(X, st.x.rest), MakeAdd(Y, st.y.rest), MakeAdd(W, st.wheel.rest);
    SumThree(a, b, c, on);
    SumThree(b, b, b, on);
    SumThree(c, c, c, on);
    var p, q, r := if st.x.rest != 0 then [a] else [], if st.y.rest != 0 then [b] else [], if st.wheel.rest != 0 then [c] else [];
    assert RestAdds(st) == p + q + r;
    SumAppend(p + q, r, on);
    SumAppend(p, q, on);
  }

  // ---------------------------------------------------------------- each kind of step, on one axis

  /** A step keeps the balance when the acting thread, the accumulators and the books even out. */
  predicate EvensOut(s: PendingProtocol.State, t: nat, after: PendingProtocol.State, a: Axis)
    requires t < |s.threads| == |after.threads|
  {
    after.book.commanded.At(a) - after.pending.At(a) - Accounted(after.book, a) - HeldBy(after.threads[t], a)
    == s.book.commanded.At(a) - s.pending.At(a) - Accounted(s.book, a) - HeldBy(s.threads[t], a)
  }

  lemma StepBalance(s: PendingProtocol.State, t: nat, after: PendingProtocol.State, a: Axis)
    requires t < |s.threads| == |after.threads| && after.threads == s.threads[t := after.threads[t]]
    requires Balanced(s, a) && EvensOut(s, t, after, a)
    ensures Balanced(after, a)
  {
    hide HeldBy;
    hide Accounted;
    HeldUpdate(s.threads, t, after.threads[t], a);
  }

  lemma CasEven(s: PendingProtocol.State, t: nat, a: Axis)
    requires Enabled(s, t, CompareExchange)
    ensures EvensOut(s, t, Apply(s, t, CompareExchange), a)
  {
    var l := s.threads[t];
    assert SumAdds(l.todo, a) == (if l.todo[0].axis == a then l.todo[0].delta else 0) + SumAdds(l.todo[1..], a);
  }

  lemma PlanEven(s: PendingProtocol.State, t: nat, a: Axis)
    requires Enabled(s, t, PlanStep)
    ensures EvensOut(s, t, Apply(s, t, PlanStep), a)
  {
    var l := s.threads[t];
    hide RestAdds;
    hide SplitAxis;
    RestSum(l.gotX.value, l.gotY.value, l.gotW.value, a);
  }

  lemma RefuseEven(s: PendingProtocol.State, t: nat, a: Axis)
    requires Enabled(s, t, Refuse) && StepOk(s.threads[t].step)
    ensures EvensOut(s, t, Apply(s, t, Refuse), a)
  {
    var st := s.threads[t].step;
    SumThree(MakeAdd(X, st.x.step), MakeAdd(Y, st.y.step), MakeAdd(W, st.wheel.step), a);
    SumThree(MakeAdd(Y, st.y.step), MakeAdd(Y, st.y.step), MakeAdd(W, st.wheel.step), a);
    SumThree(MakeAdd(W, st.wheel.step), MakeAdd(Y, st.y.step), MakeAdd(W, st.wheel.step), a);
  }

  lemma MoveEven(s: PendingProtocol.State, t: nat, dx: int, dy: int, w: int, a: Axis)
    requires Enabled(s, t, Move(dx, dy, w))
    ensures EvensOut(s, t, Apply(s, t, Move(dx, dy, w)), a)
  {
    var ax, ay, aw := MakeAdd(X, dx), MakeAdd(Y, dy), MakeAdd(W, w);
    SumThree(ax, ay, aw, a);
    SumThree(ay, ay, aw, a);
    SumThree(aw, ay, aw, a);
  }

  /** The host decodes exactly the step from a posted report, except on an axis the
      selected layout has no field for. */
  lemma PostDecodes(desc: seq<byte>, buttons: byte, st: InjectStep)
    requires Accepted(desc) && StepOk(st) && BuildReport(ParseDescriptor(desc), buttons, st, REPORT_CAP).Some?
    ensures SelectedLayout(ParseDescriptor(desc)).Some?
    ensures var lay := SelectedLayout(ParseDescriptor(desc)).value;
            Decoded(ParseDescriptor(desc), BuildReport(ParseDescriptor(desc), buttons, st, REPORT_CAP).value)
            == Vec(if lay.HasXY() then st.x.step else 0, if lay.HasXY() then st.y.step else 0,
                   if lay.wheel.present then st.wheel.step else 0)
  {
    hide BuildReport;
    hide WellFormed;
    hide Accepted;
    ParserInvariant(desc);
    BuildThenDecode(ParseDescriptor(desc), buttons, st, REPORT_CAP);
  }

  lemma PostEven(s: PendingProtocol.State, t: nat, buttons: byte, a: Axis)
    requires Enabled(s, t, Post(buttons))
    ensures EvensOut(s, t, Apply(s, t, Post(buttons)), a)
  {
    hide BuildReport;
    hide Decoded;
  }

  /** Past its gates a merge is never stuck. */
  lemma MergeNotStuck(role: Role, st: InjectStep)
    requires RoleOk(role) && role.Merge?
    ensures MergeLocated(role).Some?
    ensures var loc := MergeLocated(role).value;
            !MergeBody(loc.body, loc.lay, st.x.step, st.y.step, st.wheel.step).Stuck?
  {
    hide Admits;
    ParserInvariant(role.desc);
    var loc := MergeLocated(role).value;
    AdmittedMergeExact(loc.body, loc.lay, st.x.step, st.y.step, st.wheel.step);
  }

  lemma MergeEven(s: PendingProtocol.State, t: nat, a: Axis)
    requires Enabled(s, t, MergeStep) && StepOk(s.threads[t].step)
    ensures EvensOut(s, t, Apply(s, t, MergeStep), a)
  {
    hide MergeLocated;
    hide Gained;
    var st := s.threads[t].step;
    SumThree(MakeAdd(W, st.wheel.step), MakeAdd(W, 0), MakeAdd(W, 0), a);
    var loc := MergeLocated(s.threads[t].role).value;
    if MergeBody(loc.body, loc.lay, st.x.step, st.y.step, st.wheel.step).NoMotion? {
      assert st.x.step == 0 && st.y.step == 0;
    }
    hide MergeBody;
  }

  lemma QuietEven(s: PendingProtocol.State, t: nat, act: Action, a: Axis)
    requires Enabled(s, t, act) && (act.Load? || act.AddsDone? || act.Begin? || act.Skip? || act.Take?)
    ensures EvensOut(s, t, Apply(s, t, act), a)
  {
    hide RoleOk;
  }

  // ---------------------------------------------------------------- every step, every run

  lemma StepEven(s: PendingProtocol.State, t: nat, act: Action, a: Axis)
    requires Enabled(s, t, act) && LocalOk(s.threads[t])
    ensures EvensOut(s, t, Apply(s, t, act), a)
  {
    hide EvensOut;
    hide Apply;
    hide RoleOk;
    match act
    case Move(dx, dy, w) => MoveEven(s, t, dx, dy, w, a);
    case CompareExchange => CasEven(s, t, a);
    case PlanStep => PlanEven(s, t, a);
    case Post(buttons) => PostEven(s, t, buttons, a);
    case Refuse => RefuseEven(s, t, a);
    case MergeStep => MergeEven(s, t, a);
    case _ => QuietEven(s, t, act, a);
  }

  /** Bookkeeping: only the acting thread changes and it stays in order, the accumulators
      stay in their limits, and nothing is lost. */
  lemma StepLocal(s: PendingProtocol.State, t: nat, act: Action)
    requires Enabled(s, t, act) && LocalOk(s.threads[t])
    ensures var after := Apply(s, t, act);
            && |after.threads| == |s.threads|
            && after.threads == s.threads[t := after.threads[t]]
            && LocalOk(after.threads[t])
            && after.book.lost == s.book.lost
            && (InLimits(s) ==> InLimits(after))
  {
    if act.PlanStep? {
      hide RoleOk;
      var l := s.threads[t];
      RestSum(l.gotX.value, l.gotY.value, l.gotW.value, X);
    } else if act.MergeStep? {
      MergeNotStuck(s.threads[t].role, s.threads[t].step);
    }
    hide RoleOk;
  }

  lemma StepKeepsInv(s: PendingProtocol.State, t: nat, act: Action)
    requires Inv(s) && Enabled(s, t, act)
    ensures Inv(Apply(s, t, act))
  {
    var after := Apply(s, t, act);
    hide Apply;
    hide Balanced;
    StepLocal(s, t, act);
    forall a: Axis
      ensures Balanced(after, a)
    {
      StepEven(s, t, act, a);
      StepBalance(s, t, after, a);
    }
  }

  lemma {:induction false} RunKeepsInv(s: PendingProtocol.State, es: seq<Event>)
    requires Inv(s) && CanRun(s, es)
    ensures Inv(Run(s, es))
    decreases |es|
  {
    hide Inv;
    hide Apply;
    hide Enabled;
    if es != [] {
      StepKeepsInv(s, es[0].thread, es[0].action);
      RunKeepsInv(Apply(s, es[0].thread, es[0].action), es[1..]);
    }
  }

  lemma {:induction false} NothingHeld(ts: seq<Local>, a: Axis)
    requires forall t :: 0 <= t < |ts| ==> ts[t] == Idle
    ensures Held(ts, a) == 0
  {
    if ts != [] {
      NothingHeld(ts[1..], a);
    }
  }

  lemma StartInv(n: nat)
    ensures Inv(Start(n))
  {
    forall a: Axis
      ensures Balanced(Start(n), a)
    {
      NothingHeld(Start(n).threads, a);
    }
  }

  /** Conservation, for any number of threads and every interleaving of their atomic
      operations: on each axis what was commanded is what was delivered, plus what is
      pending or in a thread's hands, plus the discards; and a merge loses nothing. */
  lemma Conservation(n: nat, es: seq<Event>)
    requires CanRun(Start(n), es)
    ensures forall a: Axis :: Balanced(Run(Start(n), es), a)
    ensures Run(Start(n), es).book.lost == ZERO
    ensures InLimits(Run(Start(n), es))
  {
    StartInv(n);
    RunKeepsInv(Start(n), es);
  }
}
