/** What the two residual entries of the books stand for: the width entry is what merges
    could not fit into their fields, the other what posts had no field for. */
module PendingDiscards {
  import opened Bytes
  import opened HidLayout
  import HidBits
  import HidInvariant
  import opened HidCodec
  import opened InjectClock
  import opened MergeReport
  import opened PendingProtocol
  import opened PendingConservation
  import opened PendingLaws
  import opened ReportRoundTrip
  import PendingCommands
  import opened Wrappers

  function FieldOf(lay: Layout, a: Axis): Field {
    match a
    case X => lay.x
    case Y => lay.y
    case W => lay.wheel
  }

  /** What an n-byte field cannot show of cur + delta. */
  function Beyond(cur: int, delta: int, n: nat): (r: int)
    requires n == 1 || n == 2 || n == 4
  {
    cur + delta - Clamp(Sum32(cur, delta), n)
  }

  /** The merge writes axis a, which held cur and is as wide as f. */
  predicate Writes(role: Role, step: Vec, a: Axis, cur: int, f: Field) {
    && MergeLocated(role).Some?
    && var loc := MergeLocated(role).value;
       var m := MergeBody(loc.body, loc.lay, step.x, step.y, step.w);
       && m.Written? && (a.W? ==> m.wheelWritten)
       && f == FieldOf(loc.lay, a) && IsSafe(f) && ReadSigned(loc.body, f) == Some(cur)
  }

  /** What a merge cuts off on one axis, from the report it was given. */
  function MergeCut(role: Role, step: Vec, a: Axis): int {
    if MergeLocated(role).None? then 0
    else
      var loc := MergeLocated(role).value;
      var f := FieldOf(loc.lay, a);
      var cur := ReadSigned(loc.body, f).GetOr(0);
      if Writes(role, step, a, cur, f) then Beyond(cur, step.At(a), f.bitSize / 8) else 0
  }

  /** What a step of the machine throws away on one axis for want of room or of a field. */
  ghost function CutBy(s: PendingProtocol.State, t: nat, act: Action, a: Axis): int
    requires Enabled(s, t, act)
  {
    if act.MergeStep? then MergeCut(s.threads[t].role, StepVec(s.threads[t].step), a) else 0
  }

  ghost function UnshownBy(s: PendingProtocol.State, t: nat, act: Action, a: Axis): int
    requires Enabled(s, t, act)
  {
    if act.Post? && !Carries(s.threads[t].role.desc, a) then StepVec(s.threads[t].step).At(a) else 0
  }

  lemma BeyondIsZero(cur: int, delta: int, n: nat)
    requires (n == 1 || n == 2 || n == 4) && InRange(cur, n) && InRange(delta, 4)
    ensures Beyond(cur, delta, n) == 0 <==> InRange(cur + delta, n)
  {
    SumSaturates(cur, delta, n);
  }

  /** A merge loses displacement to its field's width exactly when the sum of what the hand
      did and the step is outside the field's range. */
  lemma CutExactly(role: Role, st: InjectStep, a: Axis, cur: int, f: Field)
    requires RoleOk(role) && role.Merge? && StepOk(st) && Writes(role, StepVec(st), a, cur, f)
    ensures MergeCut(role, StepVec(st), a) == Beyond(cur, StepVec(st).At(a), f.bitSize / 8)
    ensures MergeCut(role, StepVec(st), a) == 0 <==> InRange(cur + StepVec(st).At(a), f.bitSize / 8)
  {
    hide MergeBody;
    hide MergeLocated;
    hide Beyond;
    hide RoleOk;
    hide Clamp;
    hide Sum32;
    ReadInRange(MergeLocated(role).value.body, f);
    BeyondIsZero(cur, StepVec(st).At(a), f.bitSize / 8);
  }

  lemma MergeIsExact(role: Role, st: InjectStep)
    requires RoleOk(role) && role.Merge?
    ensures MergeLocated(role).Some?
    ensures var loc, step := MergeLocated(role).value, StepVec(st);
            var m := MergeBody(loc.body, loc.lay, step.x, step.y, step.w);
            !m.Stuck? && (m.Written? ==> MergedExactly(loc.body, m.body, loc.lay, step.x, step.y, step.w, m.wheelWritten))
  {
    hide Admits;
    hide MergeBody;
    hide MergedExactly;
    HidInvariant.ParserInvariant(role.desc);
    var loc, step := MergeLocated(role).value, StepVec(st);
    AdmittedMergeExact(loc.body, loc.lay, step.x, step.y, step.w);
  }

  lemma CutIsShortfall(role: Role, step: Vec, a: Axis)
    requires MergeLocated(role).Some?
    requires var loc := MergeLocated(role).value;
             var m := MergeBody(loc.body, loc.lay, step.x, step.y, step.w);
             m.Written? && MergedExactly(loc.body, m.body, loc.lay, step.x, step.y, step.w, m.wheelWritten)
    ensures var loc := MergeLocated(role).value;
            var m := MergeBody(loc.body, loc.lay, step.x, step.y, step.w);
            MergeCut(role, step, a)
            == if a.W? && !m.wheelWritten then 0 else step.At(a) - Gained(loc.body, m.body, loc.lay, m.wheelWritten).At(a)
  {
    hide MergeLocated;
    hide MergeBody;
    hide ReadSigned;
    hide Clamp;
    hide Sum32;
    hide HidBits.Bit;
  }

  lemma MergeCuts(role: Role, st: InjectStep)
    requires RoleOk(role) && role.Merge?
    ensures MergeLocated(role).Some?
    ensures var loc, step := MergeLocated(role).value, StepVec(st);
            var m := MergeBody(loc.body, loc.lay, step.x, step.y, step.w);
            && !m.Stuck?
            && (m.NoMotion? ==> forall a: Axis :: MergeCut(role, step, a) == 0)
            && (m.Written? ==>
                  var got := Gained(loc.body, m.body, loc.lay, m.wheelWritten);
                  && MergeCut(role, step, X) == step.x - got.x && MergeCut(role, step, Y) == step.y - got.y
                  && MergeCut(role, step, W) == if m.wheelWritten then step.w - got.w else 0)
  {
    hide RoleOk;
    hide MergeLocated;
    hide MergeBody;
    hide MergedExactly;
    MergeIsExact(role, st);
    var loc, step := MergeLocated(role).value, StepVec(st);
    var m := MergeBody(loc.body, loc.lay, step.x, step.y, step.w);
    if m.Written? {
      CutIsShortfall(role, step, X);
      CutIsShortfall(role, step, Y);
      CutIsShortfall(role, step, W);
    }
  }

  lemma StepDiscards(s: PendingProtocol.State, t: nat, act: Action, a: Axis)
    requires Inv(s) && Enabled(s, t, act)
    ensures var after := Apply(s, t, act);
            && after.book.widthCut.At(a) == s.book.widthCut.At(a) + CutBy(s, t, act, a)
            && after.book.noField.At(a) == s.book.noField.At(a) + UnshownBy(s, t, act, a)
  {
    if act.Post? {
      PostCarries(s, t, act.buttons, a);
    } else if act.MergeStep? {
      assert LocalOk(s.threads[t]);
      MergeCuts(s.threads[t].role, s.threads[t].step);
      hide MergeCut;
      hide MergeBody;
      hide MergeLocated;
      hide Gained;
    }
    hide RoleOk;
    hide Balanced;
    hide Decoded;
    hide BuildReport;
    hide Carries;
  }

  // ---------------------------------------------------------------- whole runs

  ghost function TotalCut(s: PendingProtocol.State, es: seq<Event>, a: Axis): int
    requires CanRun(s, es)
    decreases |es|
  {
    if es == [] then 0
    else CutBy(s, es[0].thread, es[0].action, a) + TotalCut(Apply(s, es[0].thread, es[0].action), es[1..], a)
  }

  ghost function TotalUnshown(s: PendingProtocol.State, es: seq<Event>, a: Axis): int
    requires CanRun(s, es)
    decreases |es|
  {
    if es == [] then 0
    else UnshownBy(s, es[0].thread, es[0].action, a) + TotalUnshown(Apply(s, es[0].thread, es[0].action), es[1..], a)
  }

  lemma {:induction false} RunDiscards(s: PendingProtocol.State, es: seq<Event>, a: Axis)
    requires Inv(s) && CanRun(s, es)
    ensures Run(s, es).book.widthCut.At(a) == s.book.widthCut.At(a) + TotalCut(s, es, a)
    ensures Run(s, es).book.noField.At(a) == s.book.noField.At(a) + TotalUnshown(s, es, a)
    decreases |es|
  {
    hide Inv;
    hide Apply;
    hide Enabled;
    hide CutBy;
    hide UnshownBy;
    if es != [] {
      StepDiscards(s, es[0].thread, es[0].action, a);
      StepKeepsInv(s, es[0].thread, es[0].action);
      RunDiscards(Apply(s, es[0].thread, es[0].action), es[1..], a);
    }
  }

  /** Conservation with every entry accounted for: over every run, the sum of the commands'
      arguments, each cut to 32767, is delivered plus pending plus held, plus what the plans
      dropped beyond the backlog, what the accumulators could not hold, what each merge could
      not fit into its field, and the steps posted where there is no field, which are none
      when every tick works with a layout that carries the axis. */
  lemma DiscardsExplained(n: nat, es: seq<Event>, a: Axis)
    requires CanRun(Start(n), es)
    ensures var s := Run(Start(n), es);
            PendingCommands.Commanded(es, a)
            == s.book.delivered.At(a) + s.pending.At(a) + Held(s.threads, a)
               + PendingCommands.TotalDropped(Start(n), es, a) + PendingCommands.TotalSpilled(Start(n), es, a)
               + TotalCut(Start(n), es, a) + TotalUnshown(Start(n), es, a)
    ensures TicksCarry(es, a) ==> TotalUnshown(Start(n), es, a) == 0
  {
    hide Inv;
    hide Run;
    hide CanRun;
    hide TotalCut;
    hide TotalUnshown;
    hide PendingCommands.Commanded;
    hide PendingCommands.TotalDropped;
    hide PendingCommands.TotalSpilled;
    StartInv(n);
    Conservation(n, es);
    RunDiscards(Start(n), es, a);
    PendingCommands.RunCommands(Start(n), es, a);
    assert Balanced(Run(Start(n), es), a);
    if TicksCarry(es, a) {
      ConservationOnCarriedAxis(n, es, a);
    }
  }
}
