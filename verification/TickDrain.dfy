/** One undisturbed tick of the protocol, step by step: it is one step of the drain. */
module TickDrain {
  import opened Bytes
  import opened HidLayout
  import opened HidInvariant
  import opened InjectClock
  import MergeReport
  import P = PendingProtocol
  import C = PendingConservation
  import opened PendingLaws
  import opened Wrappers

  type Event = P.Event

  type State = P.State

  /** What a run of add_pending calls leaves when nobody interferes. */
  function AfterAdds(p: P.Vec, todo: seq<P.Add>): P.Vec
    decreases |todo|
  {
    if todo == [] then p
    else AfterAdds(p.With(todo[0].axis, P.Saturate(p.At(todo[0].axis) + todo[0].delta, P.PENDING_LIMIT)), todo[1..])
  }

  function AddEvents(t: nat, n: nat): seq<Event> {
    if n == 0 then [] else [P.Event(t, P.Load), P.Event(t, P.CompareExchange)] + AddEvents(t, n - 1)
  }

  lemma {:induction false} RunAppend(s: State, a: seq<Event>, b: seq<Event>)
    requires P.CanRun(s, a) && P.CanRun(P.Run(s, a), b)
    ensures P.CanRun(s, a + b) && P.Run(s, a + b) == P.Run(P.Run(s, a), b)
    decreases |a|
  {
    hide P.Enabled;
    hide P.Apply;
    if a == [] {
      assert a + b == b;
    } else {
      assert (a + b)[1..] == a[1..] + b;
      RunAppend(P.Apply(s, a[0].thread, a[0].action), a[1..], b);
    }
  }

  lemma RunSnoc(s: State, a: seq<Event>, e: Event)
    requires P.CanRun(s, a) && P.Enabled(P.Run(s, a), e.thread, e.action)
    ensures P.CanRun(s, a + [e]) && P.Run(s, a + [e]) == P.Apply(P.Run(s, a), e.thread, e.action)
  {
    hide P.Enabled;
    hide P.Apply;
    assert [e][1..] == [];
    assert P.CanRun(P.Apply(P.Run(s, a), e.thread, e.action), []);
    RunAppend(s, a, [e]);
  }

  /** s is as before but for the actor's progress and the accumulators. */
  ghost predicate Alone(before: State, after: State, t: nat, l: P.Local, pending: P.Vec) {
    && t < |before.threads| && after.threads == before.threads[t := l] && after.pending == pending
    && after.book.delivered == before.book.delivered
  }

  /** One atomic operation of an add on its own. */
  lemma LoadAlone(s: State, t: nat)
    requires t < |s.threads| && s.threads[t].Adding? && s.threads[t].todo != []
    ensures P.Enabled(s, t, P.Load)
    ensures var l := s.threads[t];
            Alone(s, P.Apply(s, t, P.Load), t, l.(seen := Some(s.pending.At(l.todo[0].axis))), s.pending)
  {
  }

  lemma CasAlone(s: State, t: nat)
    requires t < |s.threads| && s.threads[t].Adding? && s.threads[t].todo != []
    requires s.threads[t].seen == Some(s.pending.At(s.threads[t].todo[0].axis))
    ensures P.Enabled(s, t, P.CompareExchange)
    ensures var l := s.threads[t];
            Alone(s, P.Apply(s, t, P.CompareExchange), t, l.(todo := l.todo[1..], seen := None), AfterAdds(s.pending, l.todo[..1]))
  {
    var l := s.threads[t];
    assert l.todo[..1] == [l.todo[0]] && [l.todo[0]][1..] == [];
  }

  lemma OneAdd(s: State, t: nat)
    requires t < |s.threads| && s.threads[t].Adding? && s.threads[t].todo != [] && s.threads[t].seen == None
    ensures var l, es := s.threads[t], [P.Event(t, P.Load), P.Event(t, P.CompareExchange)];
            && P.CanRun(s, es)
            && Alone(s, P.Run(s, es), t, l.(todo := l.todo[1..]), AfterAdds(s.pending, l.todo[..1]))
  {
    hide P.Enabled;
    hide P.Apply;
    hide AfterAdds;
    var l, load, cas := s.threads[t], P.Event(t, P.Load), P.Event(t, P.CompareExchange);
    LoadAlone(s, t);
    CasAlone(P.Apply(s, t, P.Load), t);
    assert [load] == [] + [load] && [load, cas] == [load] + [cas];
    RunSnoc(s, [], load);
    RunSnoc(s, [load], cas);
    hide P.CanRun;
    hide P.Run;
  }

  lemma AddsCompose(p: P.Vec, todo: seq<P.Add>)
    requires todo != []
    ensures AfterAdds(p, todo) == AfterAdds(AfterAdds(p, todo[..1]), todo[1..])
  {
    hide P.Saturate;
    assert todo[..1][1..] == [];
  }

  lemma {:induction false} AllAdds(s: State, t: nat)
    requires t < |s.threads| && s.threads[t].Adding? && s.threads[t].seen == None
    ensures var l, es := s.threads[t], AddEvents(t, |s.threads[t].todo|);
            && P.CanRun(s, es)
            && Alone(s, P.Run(s, es), t, l.(todo := []), AfterAdds(s.pending, l.todo))
    decreases |s.threads[t].todo|
  {
    hide P.Enabled;
    hide P.Apply;
    hide P.Saturate;
    var l := s.threads[t];
    if l.todo == [] {
      assert s.threads[t := l] == s.threads;
    } else {
      var two := [P.Event(t, P.Load), P.Event(t, P.CompareExchange)];
      OneAdd(s, t);
      var s2 := P.Run(s, two);
      AllAdds(s2, t);
      RunAppend(s, two, AddEvents(t, |l.todo| - 1));
      AddsCompose(s.pending, l.todo);
      var last := s2.threads[t].(todo := []);
      assert s2.threads[t := last] == s.threads[t := last];
    }
  }

  // ------------------------------------------------------------ one whole tick

  function StepMax(a: P.Axis): int { if a.W? then 1 else 96 }

  function BacklogMax(a: P.Axis): int { if a.W? then 1 else 768 }

  function PlanFor(p: P.Vec): InjectStep { Plan(DEFAULT_CONFIG, p.x, p.y, p.w) }

  function PrefixEvents(t: nat, desc: seq<byte>): seq<Event> {
    [P.Event(t, P.Begin(P.Tick(desc)))] + [P.Event(t, P.Take(P.X))] + [P.Event(t, P.Take(P.Y))]
    + [P.Event(t, P.Take(P.W))] + [P.Event(t, P.PlanStep)]
  }

  /** A zero step is not posted. */
  function LastEvent(t: nat, st: InjectStep, buttons: byte): Event {
    P.Event(t, if P.StepVec(st) == P.ZERO then P.Skip else P.Post(buttons))
  }

  function TickEvents(t: nat, p: P.Vec, desc: seq<byte>, buttons: byte): seq<Event> {
    var st := PlanFor(p);
    PrefixEvents(t, desc) + AddEvents(t, |P.RestAdds(st)|) + [P.Event(t, P.AddsDone)] + [LastEvent(t, st, buttons)]
  }

  /** The tick thread is idle, its interface usable, and its reports can be built. */
  ghost predicate Undisturbed(s: State, t: nat, desc: seq<byte>, buttons: byte) {
    && t < |s.threads| && s.threads[t] == P.Idle && P.RoleOk(P.Tick(desc))
    && BuildReport(ParseDescriptor(desc), buttons, PlanFor(P.ZERO), REPORT_CAP).Some?
  }

  /** Whether a report can be built does not depend on the step. */
  lemma EveryStepBuilds(desc: seq<byte>, buttons: byte, one: InjectStep, other: InjectStep)
    requires Accepted(desc) && BuildReport(ParseDescriptor(desc), buttons, one, REPORT_CAP).Some?
    ensures BuildReport(ParseDescriptor(desc), buttons, other, REPORT_CAP).Some?
  {
    hide BuildReport;
    hide WellFormed;
    hide Accepted;
    ParserInvariant(desc);
    MergeReport.BuilderAcceptsExactly(ParseDescriptor(desc), buttons, one, REPORT_CAP);
    MergeReport.BuilderAcceptsExactly(ParseDescriptor(desc), buttons, other, REPORT_CAP);
  }

  /** A tick can post exactly when its report, id byte included, fits 64 bytes, and the fields
      it has lie on whole bytes: X, Y and the wheel 8, 16 or 32 bits wide, the buttons up to 16. */
  lemma PostsExactly(s: State, t: nat, buttons: byte)
    requires t < |s.threads| && s.threads[t].Deciding? && s.threads[t].role.Tick? && P.RoleOk(s.threads[t].role)
    ensures var d := ParseDescriptor(s.threads[t].role.desc);
            && SelectedLayout(d).Some?
            && var lay := SelectedLayout(d).value;
               P.Enabled(s, t, P.Post(buttons)) <==>
                 && (lay.totalBits + 7) / 8 + (if d.usesReportIds then 1 else 0) <= 64
                 && (lay.HasButtons() ==> lay.buttons.bitOffset % 8 == 0 && lay.buttons.bitSize <= 16)
                 && (lay.HasXY() ==> OnBytes(lay.x) && OnBytes(lay.y))
                 && (lay.wheel.present ==> OnBytes(lay.wheel))
  {
    var d := ParseDescriptor(s.threads[t].role.desc);
    hide BuildReport;
    hide WellFormed;
    hide Accepted;
    ParserInvariant(s.threads[t].role.desc);
    MergeReport.BuilderAcceptsExactly(d, buttons, s.threads[t].step, REPORT_CAP);
    FieldsInside(d);
  }

  predicate OnBytes(f: Field) {
    f.bitOffset % 8 == 0 && f.bitSize in {8, 16, 32}
  }

  lemma FieldsInside(d: Descriptor)
    requires WellFormed(d) && SelectedLayout(d).Some?
    ensures var lay := SelectedLayout(d).value;
            && (lay.buttons.present ==> lay.buttons.bitOffset >= 0 && lay.buttons.bitSize > 0)
            && (lay.x.present ==> lay.x.bitOffset >= 0) && (lay.y.present ==> lay.y.bitOffset >= 0)
            && (lay.wheel.present ==> lay.wheel.bitOffset >= 0)
  {
    var r: nat :| r < MAX_REPORT_ID && d.layouts[r] == SelectedLayout(d).value;
  }

  /** One event at the end of a run in which only thread t was active. */
  lemma AloneStep(s: State, a: seq<Event>, e: Event, l: P.Local, pending: P.Vec)
    requires P.CanRun(s, a) && e.thread < |s.threads| == |P.Run(s, a).threads|
    requires P.Run(s, a).threads == s.threads[e.thread := P.Run(s, a).threads[e.thread]]
    requires P.Run(s, a).book.delivered == s.book.delivered
    requires P.Enabled(P.Run(s, a), e.thread, e.action)
    requires Alone(P.Run(s, a), P.Apply(P.Run(s, a), e.thread, e.action), e.thread, l, pending)
    ensures P.CanRun(s, a + [e]) && Alone(s, P.Run(s, a + [e]), e.thread, l, pending)
  {
    hide P.Enabled;
    hide P.Apply;
    hide P.CanRun;
    hide P.Run;
    RunSnoc(s, a, e);
  }

  lemma TakeThree(s: State, t: nat, desc: seq<byte>)
    requires t < |s.threads| && s.threads[t] == P.Idle && P.RoleOk(P.Tick(desc))
    ensures var es := [P.Event(t, P.Begin(P.Tick(desc)))] + [P.Event(t, P.Take(P.X))] + [P.Event(t, P.Take(P.Y))]
                      + [P.Event(t, P.Take(P.W))];
            && P.CanRun(s, es)
            && Alone(s, P.Run(s, es), t,
                     P.Taking(P.Tick(desc), Some(s.pending.x), Some(s.pending.y), Some(s.pending.w)), P.ZERO)
  {
    hide P.RoleOk;
    hide P.CanRun;
    hide P.Run;
    var e0, e1, e2 := P.Event(t, P.Begin(P.Tick(desc))), P.Event(t, P.Take(P.X)), P.Event(t, P.Take(P.Y));
    var e3 := P.Event(t, P.Take(P.W));
    var p, role := s.pending, P.Tick(desc);
    DrainedNone(s, desc);
    RunSnoc(s, [], e0);
    assert [] + [e0] == [e0];
    AloneStep(s, [e0], e1, P.Taking(role, Some(p.x), None, None), P.Vec(0, p.y, p.w));
    AloneStep(s, [e0] + [e1], e2, P.Taking(role, Some(p.x), Some(p.y), None), P.Vec(0, 0, p.w));
    AloneStep(s, [e0] + [e1] + [e2], e3, P.Taking(role, Some(p.x), Some(p.y), Some(p.w)), P.ZERO);
  }

  lemma TakeAll(s: State, t: nat, desc: seq<byte>)
    requires t < |s.threads| && s.threads[t] == P.Idle && P.RoleOk(P.Tick(desc))
    ensures var st := PlanFor(s.pending);
            && P.CanRun(s, PrefixEvents(t, desc))
            && Alone(s, P.Run(s, PrefixEvents(t, desc)), t,
                     P.Adding(P.RestAdds(st), None, P.Decide(P.Tick(desc), st)), P.ZERO)
  {
    hide P.RoleOk;
    hide P.RestAdds;
    hide SplitAxis;
    hide P.CanRun;
    hide P.Run;
    TakeThree(s, t, desc);
    RunSnoc(s, [P.Event(t, P.Begin(P.Tick(desc)))] + [P.Event(t, P.Take(P.X))] + [P.Event(t, P.Take(P.Y))]
               + [P.Event(t, P.Take(P.W))], P.Event(t, P.PlanStep));
  }

  /** What the adds put back is what one step of the drain leaves. */
  lemma AddsLeaveRemaining(p: P.Vec, a: P.Axis)
    ensures AfterAdds(P.ZERO, P.RestAdds(PlanFor(p))).At(a) == Remaining(p.At(a), StepMax(a), BacklogMax(a))
  {
    hide SplitAxis;
    var st := PlanFor(p);
    SplitLaws(p.x, 96, 768);
    SplitLaws(p.y, 96, 768);
    SplitLaws(p.w, 1, 1);
    var ax, ay, aw := [P.MakeAdd(P.X, st.x.rest)], [P.MakeAdd(P.Y, st.y.rest)], [P.MakeAdd(P.W, st.wheel.rest)];
    var x := if st.x.rest != 0 then ax else [];
    var y := if st.y.rest != 0 then ay else [];
    var w := if st.wheel.rest != 0 then aw else [];
    assert P.RestAdds(st) == x + y + w;
    assert ax[1..] == [] && ay[1..] == [] && aw[1..] == [];
    AddsAppend(P.ZERO, x + y, w);
    AddsAppend(P.ZERO, x, y);
    assert AfterAdds(P.ZERO, x) == P.Vec(st.x.rest, 0, 0);
    assert AfterAdds(P.Vec(st.x.rest, 0, 0), y) == P.Vec(st.x.rest, st.y.rest, 0);
    assert AfterAdds(P.Vec(st.x.rest, st.y.rest, 0), w) == P.Vec(st.x.rest, st.y.rest, st.wheel.rest);
  }

  lemma {:induction false} AddsAppend(p: P.Vec, a: seq<P.Add>, b: seq<P.Add>)
    ensures AfterAdds(p, a + b) == AfterAdds(AfterAdds(p, a), b)
    decreases |a|
  {
    hide P.Saturate;
    if a == [] {
      assert a + b == b;
    } else {
      assert (a + b)[1..] == a[1..] + b;
      AddsAppend(p.With(a[0].axis, P.Saturate(p.At(a[0].axis) + a[0].delta, P.PENDING_LIMIT)), a[1..], b);
    }
  }

  /** The state after a tick: pending drained by one step on every axis, the step in the
      host's hands on every axis the report carries. */
  ghost predicate Ticked(s: State, after: State, desc: seq<byte>) {
    && after.threads == s.threads
    && forall a: P.Axis ::
         && after.pending.At(a) == Remaining(s.pending.At(a), StepMax(a), BacklogMax(a))
         && after.book.delivered.At(a) == s.book.delivered.At(a)
              + if Carries(desc, a) then SplitAxis(s.pending.At(a), StepMax(a), BacklogMax(a)).step else 0
  }

  /** The end of a tick: the thread is idle again and the carried steps are delivered. */
  lemma LastStep(s: State, t: nat, desc: seq<byte>, st: InjectStep, buttons: byte, a: P.Axis)
    requires t < |s.threads| && s.threads[t] == P.Deciding(P.Tick(desc), st) && C.StepOk(st) && Accepted(desc)
    requires BuildReport(ParseDescriptor(desc), buttons, st, REPORT_CAP).Some?
    ensures var e := LastEvent(t, st, buttons);
            && P.Enabled(s, t, e.action)
            && var after := P.Apply(s, t, e.action);
               && after.threads == s.threads[t := P.Idle] && after.pending == s.pending
               && after.book.delivered.At(a) == s.book.delivered.At(a) + if Carries(desc, a) then P.StepVec(st).At(a) else 0
  {
    hide BuildReport;
    hide Accepted;
    hide P.Decoded;
    C.PostDecodes(desc, buttons, st);
  }

  lemma FinishTick(s: State, s2: State, t: nat, desc: seq<byte>, buttons: byte)
    requires Undisturbed(s, t, desc, buttons)
    requires var st := PlanFor(s.pending);
             Alone(s, s2, t, P.Deciding(P.Tick(desc), st), AfterAdds(P.ZERO, P.RestAdds(st)))
    ensures var e := LastEvent(t, PlanFor(s.pending), buttons);
            P.Enabled(s2, t, e.action) && Ticked(s, P.Apply(s2, t, e.action), desc)
  {
    hide P.RestAdds;
    hide BuildReport;
    hide P.RoleOk;
    hide P.Apply;
    hide P.Enabled;
    hide Remaining;
    hide Accepted;
    hide SplitAxis;
    hide AfterAdds;
    var st := PlanFor(s.pending);
    SplitLaws(s.pending.x, 96, 768);
    SplitLaws(s.pending.y, 96, 768);
    SplitLaws(s.pending.w, 1, 1);
    TickAccepted(desc);
    EveryStepBuilds(desc, buttons, PlanFor(P.ZERO), st);
    LastStep(s2, t, desc, st, buttons, P.X);
    assert s2.threads[t := P.Idle] == s.threads;
    forall a: P.Axis
      ensures var after := P.Apply(s2, t, LastEvent(t, st, buttons).action);
              && after.pending.At(a) == Remaining(s.pending.At(a), StepMax(a), BacklogMax(a))
              && after.book.delivered.At(a) == s.book.delivered.At(a)
                   + if Carries(desc, a) then SplitAxis(s.pending.At(a), StepMax(a), BacklogMax(a)).step else 0
    {
      AddsLeaveRemaining(s.pending, a);
      LastStep(s2, t, desc, st, buttons, a);
    }
  }

  lemma TickAccepted(desc: seq<byte>)
    requires P.RoleOk(P.Tick(desc))
    ensures Accepted(desc)
  {
  }

  /** One tick of the protocol, nobody interfering, is one step of the drain. */
  lemma TickIsDrainStep(s: State, t: nat, desc: seq<byte>, buttons: byte)
    requires Undisturbed(s, t, desc, buttons)
    ensures var es := TickEvents(t, s.pending, desc, buttons);
            P.CanRun(s, es) && Ticked(s, P.Run(s, es), desc)
  {
    hide P.RestAdds;
    hide Ticked;
    hide BuildReport;
    hide P.RoleOk;
    hide SplitAxis;
    hide AfterAdds;
    hide P.CanRun;
    hide P.Run;
    var st := PlanFor(s.pending);
    var pre, adds := PrefixEvents(t, desc), AddEvents(t, |P.RestAdds(st)|);
    TakeAll(s, t, desc);
    hide PrefixEvents;
    var s1 := P.Run(s, pre);
    AllAdds(s1, t);
    RunAppend(s, pre, adds);
    var s2 := P.Run(s1, adds);
    RunSnoc(s, pre + adds, P.Event(t, P.AddsDone));
    var s3 := P.Apply(s2, t, P.AddsDone);
    FinishTick(s, s3, t, desc, buttons);
    RunSnoc(s, pre + adds + [P.Event(t, P.AddsDone)], LastEvent(t, st, buttons));
  }

  // ------------------------------------------------------------ many ticks

  /** after is n ticks past s. */
  ghost predicate Drained(s: State, after: State, desc: seq<byte>, n: nat) {
    && after.threads == s.threads
    && forall a: P.Axis ::
         && after.pending.At(a) == Drain(s.pending.At(a), StepMax(a), BacklogMax(a), n).1
         && after.book.delivered.At(a) == s.book.delivered.At(a)
              + if Carries(desc, a) then Drain(s.pending.At(a), StepMax(a), BacklogMax(a), n).0 else 0
  }

  lemma DrainedStep(s: State, s1: State, s2: State, desc: seq<byte>, n: nat)
    requires Ticked(s, s1, desc) && Drained(s1, s2, desc, n)
    ensures Drained(s, s2, desc, n + 1)
  {
    hide SplitAxis;
    hide Remaining;
    hide Carries;
    forall a: P.Axis
      ensures s2.pending.At(a) == Drain(s.pending.At(a), StepMax(a), BacklogMax(a), n + 1).1
      ensures s2.book.delivered.At(a) == s.book.delivered.At(a)
                + if Carries(desc, a) then Drain(s.pending.At(a), StepMax(a), BacklogMax(a), n + 1).0 else 0
    {
      assert s1.pending.At(a) == Remaining(s.pending.At(a), StepMax(a), BacklogMax(a));
    }
  }

  lemma StillUndisturbed(s: State, after: State, t: nat, desc: seq<byte>, buttons: byte)
    requires Undisturbed(s, t, desc, buttons) && Ticked(s, after, desc)
    ensures Undisturbed(after, t, desc, buttons)
  {
    hide P.RoleOk;
    hide BuildReport;
  }

  lemma DrainedNone(s: State, desc: seq<byte>)
    ensures P.CanRun(s, []) && P.Run(s, []) == s && Drained(s, s, desc, 0)
  {
  }

  lemma {:induction false} TicksDrain(s: State, t: nat, desc: seq<byte>, buttons: byte, n: nat) returns (es: seq<Event>)
    requires Undisturbed(s, t, desc, buttons)
    ensures P.CanRun(s, es) && Drained(s, P.Run(s, es), desc, n)
    decreases n
  {
    hide P.CanRun;
    hide P.Run;
    hide Undisturbed;
    hide Ticked;
    hide Drained;
    hide TickEvents;
    es := [];
    DrainedNone(s, desc);
    if n > 0 {
      var first := TickEvents(t, s.pending, desc, buttons);
      TickIsDrainStep(s, t, desc, buttons);
      var s1 := P.Run(s, first);
      StillUndisturbed(s, s1, t, desc, buttons);
      var rest := TicksDrain(s1, t, desc, buttons, n - 1);
      RunAppend(s, first, rest);
      DrainedStep(s, s1, P.Run(s1, rest), desc, n - 1);
      es := first + rest;
    }
  }

  /** From any state in which the tick thread is idle, n undisturbed ticks hand the host
      exactly min(|p|, S + B, n S) counts of the pending p on every axis its reports carry
      (96 a tick and 768 in reserve on X and Y, one and one on the wheel), in the direction
      of p, and leave the remainder of min(|p|, S + B) pending. */
  lemma TicksDeliver(s: State, t: nat, desc: seq<byte>, buttons: byte, n: nat) returns (es: seq<Event>)
    requires Undisturbed(s, t, desc, buttons) && n >= 1
    ensures P.CanRun(s, es)
    ensures var after := P.Run(s, es);
            && after.threads == s.threads
            && forall a: P.Axis ::
                 var p, all := s.pending.At(a), Min(Abs(s.pending.At(a)), StepMax(a) + BacklogMax(a));
                 && after.pending.At(a) == Signed(p, all - Min(all, n * StepMax(a)))
                 && after.book.delivered.At(a) == s.book.delivered.At(a)
                      + if Carries(desc, a) then Signed(p, Min(all, n * StepMax(a))) else 0
  {
    hide Undisturbed;
    hide Carries;
    hide Drain;
    hide P.CanRun;
    hide P.Run;
    es := TicksDrain(s, t, desc, buttons, n);
    var after := P.Run(s, es);
    forall a: P.Axis
      ensures var p, all := s.pending.At(a), Min(Abs(s.pending.At(a)), StepMax(a) + BacklogMax(a));
              && after.pending.At(a) == Signed(p, all - Min(all, n * StepMax(a)))
              && after.book.delivered.At(a) == s.book.delivered.At(a)
                   + if Carries(desc, a) then Signed(p, Min(all, n * StepMax(a))) else 0
    {
      DrainLaw(s.pending.At(a), StepMax(a), BacklogMax(a), n);
    }
  }
}
