/** Descriptors as mice write them: groups of items, what they declare, and the parser's
    agreement with it. Usages and pages as in the HID Usage Tables, sections 4 and 12. */
module HidPrinted {
  import opened Bytes
  import opened HidLayout
  import opened HidItems
  import HidInvariant
  import opened Wrappers

  // ------------------------------------------------------------ groups of items

  datatype Group =
    | ReportId(id: byte)
    | Buttons(count: byte)                               // a range of one-bit buttons
    | Padding(bits: byte)                                // constant bits
    | Pair(size: byte, low: seq<byte>)                   // X and Y
    | Single(usage: byte, size: byte, low: seq<byte>)    // one generic desktop control
    | Opening                                            // the mouse's application collection
    | Closing

  predicate Minimum(low: seq<byte>) {
    |low| == 1 || |low| == 2 || |low| == 4
  }

  predicate Proper(g: Group) {
    match g
    case Buttons(n) => n > 0
    case Padding(n) => n > 0
    case Pair(size, low) => size > 0 && Minimum(low)
    case Single(_, size, low) => size > 0 && Minimum(low)
    case _ => true
  }

  /** The logical minimum is negative. */
  predicate Signed(low: seq<byte>)
    requires Minimum(low)
  {
    low[|low| - 1] >= 128
  }

  function Specs(g: Group): (s: seq<Spec>)
    requires Proper(g)
    ensures AllOk(s)
  {
    match g
    case ReportId(id) => [Spec(1, 8, [id])]
    case Buttons(n) =>
      [Spec(1, 0, [9]), Spec(2, 1, [1]), Spec(2, 2, [n]), Spec(1, 1, [0]), Spec(1, 7, [1]), Spec(1, 9, [n]), Spec(0, 8, [2])]
    case Padding(n) => [Spec(1, 7, [n]), Spec(1, 9, [1]), Spec(0, 8, [3])]
    case Pair(size, low) =>
      [Spec(1, 0, [1]), Spec(2, 0, [0x30]), Spec(2, 0, [0x31]), Spec(1, 1, low), Spec(1, 7, [size]), Spec(1, 9, [2]),
       Spec(0, 8, [6])]
    case Single(usage, size, low) =>
      [Spec(1, 0, [1]), Spec(2, 0, [usage]), Spec(1, 1, low), Spec(1, 7, [size]), Spec(1, 9, [1]), Spec(0, 8, [6])]
    case Opening => [Spec(1, 0, [1]), Spec(2, 0, [2]), Spec(0, 10, [1])]
    case Closing => [Spec(0, 12, [])]
  }

  predicate AllProper(gs: seq<Group>) {
    forall i :: 0 <= i < |gs| ==> Proper(gs[i])
  }

  function Print(gs: seq<Group>): seq<byte>
    requires AllProper(gs)
    decreases |gs|
  {
    if gs == [] then [] else PrintSpecs(Specs(gs[0])) + Print(gs[1..])
  }

  // ------------------------------------------------------------ what they declare

  /** The report being described, and per report how far it reaches and what it holds. */
  datatype Drawn = Drawn(ids: bool, id: byte, bits: seq<int>, seen: seq<bool>, lays: seq<Layout>)
  {
    predicate Ok() { |bits| == |seen| == |lays| == 16 }

    /** Ids past the sixteenth are drawn into report 0. */
    function Slot(): nat { if id < 16 then id else 0 }

    /** Taking n more bits of the report, with this layout. */
    function Take(n: int, lay: Layout): Drawn
      requires Ok()
    {
      this.(bits := bits[Slot() := bits[Slot()] + n], seen := seen[Slot() := true],
            lays := lays[Slot() := lay.(valid := true, reportId := Slot())])
    }
  }

  /** A control takes its place in the layout unless an earlier one has it. */
  function WithControl(lay: Layout, usage: byte, at: int, size: int, signed: bool): Layout {
    var f := Field(true, at, size, signed);
    if usage == 0x30 && !lay.x.present then lay.(x := f)
    else if usage == 0x31 && !lay.y.present then lay.(y := f)
    else if usage == 0x38 && !lay.wheel.present then lay.(wheel := f)
    else lay
  }

  function Draw(m: Drawn, g: Group): (n: Drawn)
    requires m.Ok() && Proper(g)
    ensures n.Ok()
  {
    var at, lay := m.bits[m.Slot()], m.lays[m.Slot()];
    match g
    case ReportId(id) => m.(ids := true, id := id)
    case Buttons(n) => m.Take(n, if lay.buttons.present then lay else lay.(buttons := Field(true, at, n, false)))
    case Padding(n) => m.Take(n, lay)
    case Pair(size, low) =>
      m.Take(2 * size, WithControl(WithControl(lay, 0x30, at, size, Signed(low)), 0x31, at + size, size, Signed(low)))
    case Single(usage, size, low) => m.Take(size, WithControl(lay, usage, at, size, Signed(low)))
    case Opening => m
    case Closing => m
  }

  function DrawAll(m: Drawn, gs: seq<Group>): (n: Drawn)
    requires m.Ok() && AllProper(gs)
    ensures n.Ok()
    decreases |gs|
  {
    if gs == [] then m else DrawAll(Draw(m, gs[0]), gs[1..])
  }

  function Sheet(): (m: Drawn)
    ensures m.Ok()
  {
    Drawn(false, 0, seq(16, _ => 0), seq(16, _ => false), seq(16, _ => NO_LAYOUT))
  }

  // ------------------------------------------------------------ the parser agrees

  predicate Agrees(s: State, m: Drawn) {
    && s.Shaped() && m.Ok()
    && s.items.reportId == m.id && s.items.usages == [] && !s.items.hasUsageRange
    && s.usesReportIds == m.ids && s.cursor == m.bits && s.seen == m.seen && s.layouts == m.lays
  }

  /** The items in force before a group's Input item, everything else as in s. */
  lemma StepsOf(s: State, specs: seq<Spec>)
    requires s.Shaped() && specs != []
    ensures StepAll(s, specs) == StepAll(Step(s, specs[0].Parsed()), specs[1..])
  {
  }

  lemma OneByte(b: byte)
    ensures LeValue([b]) == b
  {
    LittleEndian(b, 0, 0, 0);
  }

  lemma OneMoreSpec(s: State, x: Spec, rest: seq<Spec>)
    requires s.Shaped()
    ensures StepAll(s, [x] + rest) == StepAll(Step(s, x.Parsed()), rest)
  {
    assert ([x] + rest)[1..] == rest;
  }

  lemma LowIsSigned(low: seq<byte>)
    requires Minimum(low)
    ensures SignExtend(LeValue(low), |low|) < 0 <==> Signed(low)
  {
    SignedValue(low);
    Spelled(low);
    hide SignExtend;
    hide LeValue;
  }

  // each item on its own

  lemma SetPage(s: State, b: byte)
    requires s.Shaped()
    ensures Step(s, Spec(1, 0, [b]).Parsed()) == s.(items := s.items.(usagePage := b))
  {
    OneByte(b);
  }

  lemma SetMinimum(s: State, low: seq<byte>)
    requires s.Shaped()
    ensures Step(s, Spec(1, 1, low).Parsed()) == s.(items := s.items.(logicalMin := SignExtend(LeValue(low), |low|)))
  {
  }

  lemma SetSize(s: State, b: byte)
    requires s.Shaped()
    ensures Step(s, Spec(1, 7, [b]).Parsed()) == s.(items := s.items.(reportSize := b))
  {
    OneByte(b);
  }

  lemma SetCount(s: State, b: byte)
    requires s.Shaped()
    ensures Step(s, Spec(1, 9, [b]).Parsed()) == s.(items := s.items.(reportCount := b))
  {
    OneByte(b);
  }

  lemma SetRange(s: State, lo: byte, hi: byte)
    requires s.Shaped()
    ensures Step(Step(s, Spec(2, 1, [lo]).Parsed()), Spec(2, 2, [hi]).Parsed())
            == s.(items := s.items.(usageMin := lo, usageMax := hi, hasUsageRange := true))
  {
    OneByte(lo);
    OneByte(hi);
  }

  lemma AddUsage(s: State, b: byte)
    requires s.Shaped() && |s.items.usages| < 16
    ensures Step(s, Spec(2, 0, [b]).Parsed()) == s.(items := s.items.(usages := s.items.usages + [Usage(s.items.usagePage, b)]))
  {
    OneByte(b);
  }

  lemma FlagsOf(b: byte)
    ensures Spec(0, 8, [b]).Parsed() == ShortItem(0, 8, 1, b)
  {
    OneByte(b);
  }

  lemma ReportIdAgrees(s: State, m: Drawn, id: byte)
    requires Agrees(s, m)
    ensures Agrees(StepAll(s, Specs(ReportId(id))), Draw(m, ReportId(id)))
  {
    OneByte(id);
    OneMoreSpec(s, Spec(1, 8, [id]), []);
    assert [Spec(1, 8, [id])] + [] == [Spec(1, 8, [id])];
  }

  lemma CollectionAgrees(s: State, m: Drawn, g: Group)
    requires Agrees(s, m) && (g.Opening? || g.Closing?)
    ensures Agrees(StepAll(s, Specs(g)), Draw(m, g))
  {
    OneByte(1);
    OneByte(2);
    var a, b, c, d := Spec(1, 0, [1]), Spec(2, 0, [2]), Spec(0, 10, [1]), Spec(0, 12, []);
    if g.Closing? {
      OneMoreSpec(s, d, []);
      assert [d] + [] == [d];
    } else {
      assert [a, b, c] == [a] + [b, c] && [b, c] == [b] + [c] && [c] == [c] + [];
      OneMoreSpec(s, a, [b, c]);
      var s1 := Step(s, a.Parsed());
      OneMoreSpec(s1, b, [c]);
      OneMoreSpec(Step(s1, b.Parsed()), c, []);
    }
  }

  /** Padding takes its bits as one constant control. */
  lemma PaddingReady(s: State, n: byte)
    requires s.Shaped() && n > 0
    ensures StepAll(s, Specs(Padding(n)))
            == Step(s.(items := s.items.(reportSize := n, reportCount := 1)), ShortItem(0, 8, 1, 3))
  {
    hide Step;
    hide LeValue;
    var x := Specs(Padding(n));
    StepsOf(s, x);
    SetSize(s, n);
    var s1 := s.(items := s.items.(reportSize := n));
    StepsOf(s1, x[1..]);
    SetCount(s1, 1);
    var s2 := s1.(items := s1.items.(reportCount := 1));
    StepsOf(s2, x[1..][1..]);
    FlagsOf(3);
  }

  lemma PaddingAgrees(s: State, m: Drawn, n: byte)
    requires Agrees(s, m) && n > 0
    ensures Agrees(StepAll(s, Specs(Padding(n))), Draw(m, Padding(n)))
  {
    hide Specs;
    hide StepAll;
    hide Step;
    PaddingReady(s, n);
    NotVariable(s, m, s.items.(reportSize := n, reportCount := 1), 3);
    TakeStamps(m, n, m.lays[m.Slot()]);
    hide Drawn.Take;
    hide AssignInput;
  }

  /** A layout is stamped when its bits are taken, so stamping it before makes no difference. */
  lemma TakeStamps(m: Drawn, n: int, lay: Layout)
    requires m.Ok()
    ensures m.Take(n, lay.(valid := true, reportId := m.Slot())) == m.Take(n, lay)
  {
  }

  /** What is in force when a group's Input item comes. */
  lemma ButtonsReady(s: State, n: byte)
    requires s.Shaped() && s.items.usages == [] && n > 0
    ensures var it := s.items;
            StepAll(s, Specs(Buttons(n)))
            == Step(s.(items := Items(9, 1, n, 0, it.reportId, [], true, 1, n)), ShortItem(0, 8, 1, 2))
  {
    hide Step;
    hide LeValue;
    var x := Specs(Buttons(n));
    Seven(s, x);
    SetPage(s, 9);
    var s1 := s.(items := s.items.(usagePage := 9));
    SetRange(s1, 1, n);
    var s2 := s1.(items := s1.items.(usageMin := 1, usageMax := n, hasUsageRange := true));
    SetMinimum(s2, [0]);
    OneByte(0);
    SignedValue([0]);
    var s3 := s2.(items := s2.items.(logicalMin := 0));
    SetSize(s3, 1);
    SetCount(s3.(items := s3.items.(reportSize := 1)), n);
    FlagsOf(2);
    hide SignExtend;
  }

  lemma Seven(s: State, x: seq<Spec>)
    requires s.Shaped() && |x| == 7
    ensures StepAll(s, x)
            == Step(Step(Step(Step(Step(Step(Step(s, x[0].Parsed()), x[1].Parsed()), x[2].Parsed()), x[3].Parsed()),
                                   x[4].Parsed()), x[5].Parsed()), x[6].Parsed())
  {
    hide Step;
    StepsOf(s, x);
    Six(Step(s, x[0].Parsed()), x[1..]);
  }

  lemma Six(s: State, x: seq<Spec>)
    requires s.Shaped() && |x| == 6
    ensures StepAll(s, x)
            == Step(Step(Step(Step(Step(Step(s, x[0].Parsed()), x[1].Parsed()), x[2].Parsed()), x[3].Parsed()),
                              x[4].Parsed()), x[5].Parsed())
  {
    hide Step;
    var s1 := Step(s, x[0].Parsed());
    var s2 := Step(s1, x[1].Parsed());
    var s3 := Step(s2, x[2].Parsed());
    var s4 := Step(s3, x[3].Parsed());
    var s5 := Step(s4, x[4].Parsed());
    StepsOf(s, x);
    StepsOf(s1, x[1..]);
    StepsOf(s2, x[1..][1..]);
    StepsOf(s3, x[1..][1..][1..]);
    StepsOf(s4, x[1..][1..][1..][1..]);
    StepsOf(s5, x[1..][1..][1..][1..][1..]);
  }

  /** A proper Input item takes the bits of its fields from the report in hand. */
  lemma InputTakes(s: State, m: Drawn, it: Items, flags: byte)
    requires Agrees(s, m) && it.reportId == m.id && 0 < it.reportSize <= 4096 && 0 < it.reportCount <= 4096
    requires it.reportSize * it.reportCount <= 4096 && |it.usages| <= 16
    ensures var r := m.Slot();
            Agrees(Step(s.(items := it), ShortItem(0, 8, 1, flags)),
                   m.Take(it.reportSize * it.reportCount,
                          AssignInput(m.lays[r].(valid := true, reportId := r), it, flags, m.bits[r])))
  {
    var r := m.Slot();
    InputKeepsStamp(m.lays[r].(valid := true, reportId := r), it, flags, m.bits[r]);
    hide AssignInput;
  }

  lemma InputKeepsStamp(lay: Layout, it: Items, flags: nat, base: int)
    ensures HidInvariant.SameStamp(AssignInput(lay, it, flags, base), lay)
  {
    if 0 <= it.reportCount <= |it.usages| {
      HidInvariant.AssignListedKeepsStamp(lay, it.usages, it.reportCount, base, it.reportSize, it.logicalMin < 0);
      hide AssignListed;
    }
  }

  lemma ButtonsAgree(s: State, m: Drawn, n: byte)
    requires Agrees(s, m) && n > 0
    ensures Agrees(StepAll(s, Specs(Buttons(n))), Draw(m, Buttons(n)))
  {
    ButtonsReady(s, n);
    hide Specs;
    hide StepAll;
  }

  /** X and Y listed under the generic desktop page. */
  lemma PairListed(s: State)
    requires s.Shaped() && s.items.usages == []
    ensures Step(Step(Step(s, Spec(1, 0, [1]).Parsed()), Spec(2, 0, [0x30]).Parsed()), Spec(2, 0, [0x31]).Parsed())
            == s.(items := s.items.(usagePage := 1, usages := [Usage(1, 0x30), Usage(1, 0x31)]))
  {
    hide Step;
    SetPage(s, 1);
    var s1 := s.(items := s.items.(usagePage := 1));
    AddUsage(s1, 0x30);
    assert [] + [Usage(1, 0x30)] == [Usage(1, 0x30)];
    AddUsage(s1.(items := s1.items.(usages := [Usage(1, 0x30)])), 0x31);
    assert [Usage(1, 0x30)] + [Usage(1, 0x31)] == [Usage(1, 0x30), Usage(1, 0x31)];
  }

  /** The minimum, the size of a control and how many there are. */
  lemma Sized(s: State, low: seq<byte>, size: byte, count: byte)
    requires s.Shaped()
    ensures Step(Step(Step(s, Spec(1, 1, low).Parsed()), Spec(1, 7, [size]).Parsed()), Spec(1, 9, [count]).Parsed())
            == s.(items := s.items.(logicalMin := SignExtend(LeValue(low), |low|), reportSize := size, reportCount := count))
  {
    hide Step;
    SetMinimum(s, low);
    var s1 := s.(items := s.items.(logicalMin := SignExtend(LeValue(low), |low|)));
    SetSize(s1, size);
    SetCount(s1.(items := s1.items.(reportSize := size)), count);
    hide SignExtend;
    hide LeValue;
  }

  lemma PairReady(s: State, size: byte, low: seq<byte>)
    requires s.Shaped() && s.items.usages == [] && !s.items.hasUsageRange && size > 0 && Minimum(low)
    ensures var it := s.items;
            StepAll(s, Specs(Pair(size, low)))
            == Step(s.(items := Items(1, size, 2, SignExtend(LeValue(low), |low|), it.reportId,
                                      [Usage(1, 0x30), Usage(1, 0x31)], false, it.usageMin, it.usageMax)),
                    ShortItem(0, 8, 1, 6))
  {
    hide Step;
    hide LeValue;
    hide SignExtend;
    Seven(s, Specs(Pair(size, low)));
    PairListed(s);
    Sized(s.(items := s.items.(usagePage := 1, usages := [Usage(1, 0x30), Usage(1, 0x31)])), low, size, 2);
    FlagsOf(6);
    hide Spec.Parsed;
    hide StepAll;
  }

  lemma TwoListed(lay: Layout, base: int, size: int, signed: bool)
    requires size > 0
    ensures AssignListed(lay, [Usage(1, 0x30), Usage(1, 0x31)], 2, base, size, signed)
            == WithControl(WithControl(lay, 0x30, base, size, signed), 0x31, base + size, size, signed)
  {
    var us := [Usage(1, 0x30), Usage(1, 0x31)];
    assert AssignListed(lay, us, 0, base, size, signed) == lay;
    assert AssignListed(lay, us, 1, base, size, signed) == WithControl(lay, 0x30, base, size, signed);
  }

  lemma PairInput(it: Items, lay: Layout, at: int, size: byte, low: seq<byte>)
    requires size > 0 && Minimum(low) && it.reportSize == size && it.reportCount == 2
    requires it.logicalMin == SignExtend(LeValue(low), |low|) && it.usages == [Usage(1, 0x30), Usage(1, 0x31)]
    ensures AssignInput(lay, it, 6, at)
            == WithControl(WithControl(lay, 0x30, at, size, Signed(low)), 0x31, at + size, size, Signed(low))
  {
    LowIsSigned(low);
    TwoListed(lay, at, size, Signed(low));
    hide LeValue;
    hide SignExtend;
    hide Signed;
    hide AssignListed;
    hide WithControl;
  }

  /** Where X and Y go does not depend on the stamp. */
  lemma PairStamped(m: Drawn, at: int, size: byte, f: bool)
    requires m.Ok() && size > 0
    ensures var r := m.Slot();
            var lay := m.lays[r].(valid := true, reportId := r);
            m.Take(2 * size, WithControl(WithControl(lay, 0x30, at, size, f), 0x31, at + size, size, f))
            == m.Take(2 * size, WithControl(WithControl(m.lays[r], 0x30, at, size, f), 0x31, at + size, size, f))
  {
  }

  lemma PairSteps(s: State, m: Drawn, size: byte, low: seq<byte>)
    requires Agrees(s, m) && size > 0 && Minimum(low)
    ensures var r, f := m.Slot(), Signed(low);
            var lay := m.lays[r].(valid := true, reportId := r);
            Agrees(StepAll(s, Specs(Pair(size, low))),
                   m.Take(2 * size, WithControl(WithControl(lay, 0x30, m.bits[r], size, f), 0x31, m.bits[r] + size, size, f)))
  {
    var v, it, r := SignExtend(LeValue(low), |low|), s.items, m.Slot();
    var ready := Items(1, size, 2, v, it.reportId, [Usage(1, 0x30), Usage(1, 0x31)], false, it.usageMin, it.usageMax);
    hide Specs;
    hide StepAll;
    hide LeValue;
    hide SignExtend;
    hide AssignInput;
    hide Step;
    hide WithControl;
    hide Signed;
    hide Drawn.Take;
    PairInput(ready, m.lays[r].(valid := true, reportId := r), m.bits[r], size, low);
    PairReady(s, size, low);
    InputTakes(s, m, ready, 6);
    hide Agrees;
  }

  lemma PairAgrees(s: State, m: Drawn, size: byte, low: seq<byte>)
    requires Agrees(s, m) && size > 0 && Minimum(low)
    ensures Agrees(StepAll(s, Specs(Pair(size, low))), Draw(m, Pair(size, low)))
  {
    hide Specs;
    hide StepAll;
    hide WithControl;
    hide Signed;
    hide Drawn.Take;
    hide Draw;
    PairSteps(s, m, size, low);
    PairStamped(m, m.bits[m.Slot()], size, Signed(low));
    PairDrawn(m, size, low);
    hide Agrees;
  }

  lemma PairDrawn(m: Drawn, size: byte, low: seq<byte>)
    requires m.Ok() && size > 0 && Minimum(low)
    ensures var r, f := m.Slot(), Signed(low);
            Draw(m, Pair(size, low))
            == m.Take(2 * size, WithControl(WithControl(m.lays[r], 0x30, m.bits[r], size, f), 0x31, m.bits[r] + size, size, f))
  {
    hide WithControl;
    hide Drawn.Take;
    hide Signed;
  }

  lemma SingleReady(s: State, usage: byte, size: byte, low: seq<byte>)
    requires s.Shaped() && s.items.usages == [] && !s.items.hasUsageRange && size > 0 && Minimum(low)
    ensures var it := s.items;
            StepAll(s, Specs(Single(usage, size, low)))
            == Step(s.(items := Items(1, size, 1, SignExtend(LeValue(low), |low|), it.reportId,
                                      [Usage(1, usage)], false, it.usageMin, it.usageMax)),
                    ShortItem(0, 8, 1, 6))
  {
    hide Step;
    hide LeValue;
    hide SignExtend;
    var x := Specs(Single(usage, size, low));
    Six(s, x);
    SetPage(s, 1);
    var s1 := s.(items := s.items.(usagePage := 1));
    AddUsage(s1, usage);
    assert [] + [Usage(1, usage)] == [Usage(1, usage)];
    Sized(s1.(items := s1.items.(usages := [Usage(1, usage)])), low, size, 1);
    FlagsOf(6);
    hide Spec.Parsed;
    hide StepAll;
  }

  lemma OneListed(lay: Layout, usage: byte, base: int, size: int, signed: bool)
    requires size > 0
    ensures AssignListed(lay, [Usage(1, usage)], 1, base, size, signed) == WithControl(lay, usage, base, size, signed)
  {
    assert AssignListed(lay, [Usage(1, usage)], 0, base, size, signed) == lay;
  }

  lemma SingleInput(it: Items, lay: Layout, at: int, usage: byte, size: byte, low: seq<byte>)
    requires size > 0 && Minimum(low) && it.reportSize == size && it.reportCount == 1
    requires it.logicalMin == SignExtend(LeValue(low), |low|) && it.usages == [Usage(1, usage)]
    ensures AssignInput(lay, it, 6, at) == WithControl(lay, usage, at, size, Signed(low))
  {
    LowIsSigned(low);
    OneListed(lay, usage, at, size, Signed(low));
    hide LeValue;
    hide SignExtend;
    hide Signed;
    hide AssignListed;
    hide WithControl;
  }

  lemma SingleStamped(m: Drawn, at: int, usage: byte, size: byte, f: bool)
    requires m.Ok() && size > 0
    ensures var r := m.Slot();
            m.Take(size, WithControl(m.lays[r].(valid := true, reportId := r), usage, at, size, f))
            == m.Take(size, WithControl(m.lays[r], usage, at, size, f))
  {
  }

  lemma SingleAgrees(s: State, m: Drawn, usage: byte, size: byte, low: seq<byte>)
    requires Agrees(s, m) && size > 0 && Minimum(low)
    ensures Agrees(StepAll(s, Specs(Single(usage, size, low))), Draw(m, Single(usage, size, low)))
  {
    var v, it, r := SignExtend(LeValue(low), |low|), s.items, m.Slot();
    var ready := Items(1, size, 1, v, it.reportId, [Usage(1, usage)], false, it.usageMin, it.usageMax);
    hide Specs;
    hide StepAll;
    hide LeValue;
    hide SignExtend;
    hide AssignInput;
    hide Step;
    hide WithControl;
    hide Signed;
    SingleInput(ready, m.lays[r].(valid := true, reportId := r), m.bits[r], usage, size, low);
    SingleReady(s, usage, size, low);
    InputTakes(s, m, ready, 6);
    SingleStamped(m, m.bits[r], usage, size, Signed(low));
    hide Drawn.Take;
  }

  lemma GroupAgrees(s: State, m: Drawn, g: Group)
    requires Agrees(s, m) && Proper(g)
    ensures Agrees(StepAll(s, Specs(g)), Draw(m, g))
  {
    hide Agrees;
    hide StepAll;
    hide Specs;
    hide Draw;
    match g
    case ReportId(id) => ReportIdAgrees(s, m, id);
    case Buttons(n) => ButtonsAgree(s, m, n);
    case Padding(n) => PaddingAgrees(s, m, n);
    case Pair(size, low) => PairAgrees(s, m, size, low);
    case Single(usage, size, low) => SingleAgrees(s, m, usage, size, low);
    case _ => CollectionAgrees(s, m, g);
  }

  /** The walk over one group, with anything before and after it. */
  lemma WalkGroup(pre: seq<byte>, g: Group, more: seq<byte>, s: State)
    requires Proper(g) && s.Shaped()
    ensures var one := PrintSpecs(Specs(g));
            WalkFrom(pre + (one + more), |pre|, s) == WalkFrom((pre + one) + more, |pre + one|, StepAll(s, Specs(g)))
  {
    hide Specs;
    hide PrintSpecs;
    hide StepAll;
    hide WalkFrom;
    var one := PrintSpecs(Specs(g));
    assert pre + (one + more) == pre + one + more;
    WalkSpecs(pre, Specs(g), more, s);
  }

  lemma {:induction false} WalkAgrees(pre: seq<byte>, gs: seq<Group>, s: State, m: Drawn)
    requires AllProper(gs) && Agrees(s, m)
    ensures WalkDraws(pre + Print(gs), |pre|, s, DrawAll(m, gs))
    decreases |gs|
  {
    hide Agrees;
    hide StepAll;
    hide Specs;
    hide Draw;
    hide PrintSpecs;
    hide Proper;
    AgreesShaped(s, m);
    if gs == [] {
      assert pre + Print(gs) == pre;
    } else {
      hide WalkFrom;
      var g, rest := gs[0], gs[1..];
      GroupAgrees(s, m, g);
      WalkGroup(pre, g, Print(rest), s);
      WalkAgrees(pre + PrintSpecs(Specs(g)), rest, StepAll(s, Specs(g)), Draw(m, g));
    }
  }

  predicate WalkDraws(desc: seq<byte>, i: nat, s: State, m: Drawn)
    requires i <= |desc| && s.Shaped()
  {
    WalkFrom(desc, i, s).complete && Agrees(WalkFrom(desc, i, s).state, m)
  }

  lemma AgreesShaped(s: State, m: Drawn)
    requires Agrees(s, m)
    ensures s.Shaped() && m.Ok()
  {
  }

  /** A descriptor written from groups is parsed as they are drawn: every report that has
      bits is there, reaches as far as its groups, and holds the first of each control at the
      place where the bits before it end. */
  lemma PrintedIsDrawn(gs: seq<Group>)
    requires AllProper(gs) && Print(gs) != []
    ensures var d, m := ParseDescriptor(Print(gs)), DrawAll(Sheet(), gs);
            && d.parsed && d.usesReportIds == m.ids
            && forall r :: 0 <= r < 16 ==>
                 d.layouts[r] == if m.seen[r] then m.lays[r].(valid := true, reportId := r, totalBits := m.bits[r])
                                 else m.lays[r]
  {
    hide DrawAll;
    hide Print;
    hide WalkFrom;
    var none: seq<byte> := [];
    assert none + Print(gs) == Print(gs);
    assert Agrees(InitialState(), Sheet());
    WalkAgrees(none, gs, InitialState(), Sheet());
  }

  // ------------------------------------------------------------ the usual mouse

  /** Buttons, padding, X and Y, wheel; under a report id or not. */
  function Usual(id: Option<byte>, buttons: byte, pad: byte, size: byte, low: seq<byte>): seq<Group> {
    [Opening] + (if id.Some? then [ReportId(id.value)] else [])
    + [Buttons(buttons), Padding(pad), Pair(size, low), Single(0x38, 8, [0x81]), Closing]
  }

  lemma DrawnOn(m: Drawn, g: Group, rest: seq<Group>)
    requires m.Ok() && Proper(g) && AllProper(rest)
    ensures AllProper([g] + rest) && DrawAll(m, [g] + rest) == DrawAll(Draw(m, g), rest)
  {
    assert ([g] + rest)[1..] == rest;
  }

  /** The report in hand is n bits longer in t than in m, with this layout. */
  predicate Here(m: Drawn, t: Drawn, n: int, lay: Layout) {
    m.Ok() && t.Ok() && t.ids == m.ids
    && var r := m.Slot();
       t.Slot() == r && t.seen[r] && t.bits[r] == m.bits[r] + n && t.lays[r] == lay.(valid := true, reportId := r)
  }

  /** What taking bits leaves of the report in hand. */
  lemma TakeHere(m: Drawn, n: int, lay: Layout)
    requires m.Ok()
    ensures Here(m, m.Take(n, lay), n, lay)
  {
  }

  /** Each group of the usual mouse, drawn onto a report that has none of its controls. */
  lemma ButtonsHere(m: Drawn, count: byte)
    requires m.Ok() && count > 0 && !m.lays[m.Slot()].buttons.present
    ensures var n, r := Draw(m, Buttons(count)), m.Slot();
            Here(m, n, count, m.lays[r].(buttons := Field(true, m.bits[r], count, false)))
  {
    TakeHere(m, count, m.lays[m.Slot()].(buttons := Field(true, m.bits[m.Slot()], count, false)));
  }

  lemma PaddingHere(m: Drawn, pad: byte)
    requires m.Ok() && pad > 0
    ensures Here(m, Draw(m, Padding(pad)), pad, m.lays[m.Slot()])
  {
    TakeHere(m, pad, m.lays[m.Slot()]);
  }

  lemma PairHere(m: Drawn, size: byte, low: seq<byte>)
    requires m.Ok() && size > 0 && Minimum(low) && !m.lays[m.Slot()].x.present && !m.lays[m.Slot()].y.present
    ensures var n, r, f := Draw(m, Pair(size, low)), m.Slot(), Signed(low);
            Here(m, n, 2 * size, m.lays[r].(x := Field(true, m.bits[r], size, f), y := Field(true, m.bits[r] + size, size, f)))
  {
    var r, f := m.Slot(), Signed(low);
    hide Signed;
    TakeHere(m, 2 * size, m.lays[r].(x := Field(true, m.bits[r], size, f), y := Field(true, m.bits[r] + size, size, f)));
  }

  lemma WheelHere(m: Drawn)
    requires m.Ok() && !m.lays[m.Slot()].wheel.present
    ensures var n, r := Draw(m, Single(0x38, 8, [0x81])), m.Slot();
            Here(m, n, 8, m.lays[r].(wheel := Field(true, m.bits[r], 8, true)))
  {
    LastByte(0x81);
    hide Signed;
    TakeHere(m, 8, m.lays[m.Slot()].(wheel := Field(true, m.bits[m.Slot()], 8, true)));
  }

  lemma UsualDrawn(m: Drawn, buttons: byte, pad: byte, size: byte, low: seq<byte>)
    requires m.Ok() && buttons > 0 && pad > 0 && size > 0 && Minimum(low)
    requires m.bits[m.Slot()] == 0 && m.lays[m.Slot()] == NO_LAYOUT
    ensures var gs := [Buttons(buttons), Padding(pad), Pair(size, low), Single(0x38, 8, [0x81]), Closing];
            && AllProper(gs)
            && var n, r, at := DrawAll(m, gs), m.Slot(), buttons as int + pad;
               && n.ids == m.ids && n.seen[r] && n.bits[r] == at + 2 * size + 8
               && n.lays[r] == Layout(true, r, 0, Field(true, 0, buttons, false), Field(true, at, size, Signed(low)),
                                      Field(true, at + size, size, Signed(low)), Field(true, at + 2 * size, 8, true))
  {
    var b, p, x, w := Buttons(buttons), Padding(pad), Pair(size, low), Single(0x38, 8, [0x81]);
    hide Signed;
    hide DrawAll;
    hide Draw;
    var m1 := Draw(m, b);
    var m2 := Draw(m1, p);
    var m3 := Draw(m2, x);
    ButtonsHere(m, buttons);
    PaddingHere(m1, pad);
    PairHere(m2, size, low);
    WheelHere(m3);
    DrawFive(m, b, p, x, w);
  }

  lemma CloseDraws(m: Drawn)
    requires m.Ok()
    ensures Proper(Closing) && Draw(m, Closing) == m
  {
  }

  lemma DrawFive(m: Drawn, b: Group, p: Group, x: Group, w: Group)
    requires m.Ok() && Proper(b) && Proper(p) && Proper(x) && Proper(w)
    ensures AllProper([b, p, x, w, Closing]) && DrawAll(m, [b, p, x, w, Closing]) == Draw(Draw(Draw(Draw(m, b), p), x), w)
  {
    hide Proper;
    var m1 := Draw(m, b);
    var m2 := Draw(m1, p);
    var m3 := Draw(m2, x);
    var m4 := Draw(m3, w);
    CloseDraws(m4);
    hide Draw;
    assert [b, p, x, w, Closing] == [b] + [p, x, w, Closing] && [p, x, w, Closing] == [p] + [x, w, Closing];
    assert [x, w, Closing] == [x] + [w, Closing] && [w, Closing] == [w] + [Closing] && [Closing] == [Closing] + [];
    hide DrawAll;
    DrawnEnd(m4);
    DrawnOn(m4, Closing, []);
    DrawnOn(m3, w, [Closing]);
    DrawnOn(m2, x, [w, Closing]);
    DrawnOn(m1, p, [x, w, Closing]);
    DrawnOn(m, b, [p, x, w, Closing]);
  }

  lemma LastByte(b: byte)
    ensures Signed([b]) <==> b >= 128
  {
  }

  lemma DrawnEnd(m: Drawn)
    requires m.Ok()
    ensures DrawAll(m, []) == m
  {
  }

  /** For any number of buttons and padding, any width of the axes, any logical minimum of
      one, two or four bytes, with or without a report id: the parser finds the buttons, X, Y
      and the wheel one behind the other, in the report of that id. */
  lemma UsualMouse(id: Option<byte>, buttons: byte, pad: byte, size: byte, low: seq<byte>)
    requires buttons > 0 && pad > 0 && size > 0 && Minimum(low) && (id.Some? ==> id.value < 16)
    ensures var gs := Usual(id, buttons, pad, size, low);
            && AllProper(gs)
            && var d, r, at := ParseDescriptor(Print(gs)), id.GetOr(0), buttons as int + pad;
               && d.parsed && d.usesReportIds == id.Some?
               && d.layouts[r] == Layout(true, r, at + 2 * size + 8, Field(true, 0, buttons, false),
                                         Field(true, at, size, Signed(low)), Field(true, at + size, size, Signed(low)),
                                         Field(true, at + 2 * size, 8, true))
  {
    hide Draw;
    hide Signed;
    var rest := [Buttons(buttons), Padding(pad), Pair(size, low), Single(0x38, 8, [0x81]), Closing];
    var named := if id.Some? then [ReportId(id.value)] + rest else rest;
    var gs := Usual(id, buttons, pad, size, low);
    assert gs == [Opening] + named;
    var m := if id.Some? then Sheet().(ids := true, id := id.value) else Sheet();
    UsualDrawn(m, buttons, pad, size, low);
    if id.Some? {
      DrawnOn(Sheet(), ReportId(id.value), rest);
      assert Draw(Sheet(), ReportId(id.value)) == m by { DrawId(Sheet(), id.value); }
    }
    DrawnOn(Sheet(), Opening, named);
    assert Draw(Sheet(), Opening) == Sheet() by { DrawOpening(Sheet()); }
    hide DrawAll;
    PrintedNotEmpty(gs);
    PrintedIsDrawn(gs);
  }

  lemma DrawId(m: Drawn, id: byte)
    requires m.Ok()
    ensures Draw(m, ReportId(id)) == m.(ids := true, id := id)
  {
  }

  lemma DrawOpening(m: Drawn)
    requires m.Ok()
    ensures Draw(m, Opening) == m
  {
  }

  lemma PrintedNotEmpty(gs: seq<Group>)
    requires gs != [] && AllProper(gs) && gs[0] == Opening
    ensures Print(gs) != []
  {
    var x := Specs(Opening);
    assert |PrintSpecs(x)| >= 1;
  }

  // ------------------------------------------------------------ items a mouse seldom has

  /** An Input item of more than 4096 bits, or of none, declares nothing and takes no bits; it
      still uses up the usages before it. */
  lemma InputRefused(s: State, flags: byte)
    requires s.Shaped()
    requires var it := s.items; it.reportSize <= 0 || it.reportCount <= 0 || it.reportSize * it.reportCount > 4096
    ensures Step(s, Spec(0, 8, [flags]).Parsed())
            == s.(items := s.items.(usages := [], hasUsageRange := false, usageMin := 0, usageMax := 0))
  {
    FlagsOf(flags);
  }

  /** A constant or an array takes its bits and declares nothing. */
  lemma NotVariable(s: State, m: Drawn, it: Items, flags: byte)
    requires Agrees(s, m) && it.reportId == m.id && 0 < it.reportSize <= 4096 && 0 < it.reportCount <= 4096
    requires it.reportSize * it.reportCount <= 4096 && |it.usages| <= 16
    requires flags % 4 != 2
    ensures Agrees(Step(s.(items := it), ShortItem(0, 8, 1, flags)),
                   m.Take(it.reportSize * it.reportCount, m.lays[m.Slot()].(valid := true, reportId := m.Slot())))
  {
    assert flags % 2 == 1 || flags / 2 % 2 == 0;
    InputTakes(s, m, it, flags);
  }

  function UsageSpecs(us: seq<byte>): (x: seq<Spec>)
    ensures |x| == |us|
  {
    seq(|us|, i requires 0 <= i < |us| => Spec(2, 0, [us[i]]))
  }

  /** Of any number of one-byte usages the first sixteen count. */
  lemma {:induction false} SixteenUsages(s: State, us: seq<byte>)
    requires s.Shaped()
    ensures StepAll(s, UsageSpecs(us)).items.usages
            == (s.items.usages + seq(|us|, i requires 0 <= i < |us| => Usage(s.items.usagePage, us[i])))
               [..if |s.items.usages| + |us| < 16 then |s.items.usages| + |us| else 16]
    decreases |us|
  {
    var x := UsageSpecs(us);
    var all := s.items.usages + seq(|us|, i requires 0 <= i < |us| => Usage(s.items.usagePage, us[i]));
    if us != [] {
      var t := Step(s, x[0].Parsed());
      OneByte(us[0]);
      assert x[1..] == UsageSpecs(us[1..]);
      SixteenUsages(t, us[1..]);
      var more := seq(|us| - 1, i requires 0 <= i < |us| - 1 => Usage(s.items.usagePage, us[1..][i]));
      assert all == s.items.usages + [Usage(s.items.usagePage, us[0])] + more;
    }
  }

  /** A usage of four bytes brings its own page in the upper two. */
  lemma LongUsage(s: State, a: byte, b: byte, c: byte, d: byte)
    requires s.Shaped() && |s.items.usages| < 16
    ensures Step(s, Spec(2, 0, [a, b, c, d]).Parsed())
            == s.(items := s.items.(usages := s.items.usages + [Usage(c as int + 256 * d as int, a as int + 256 * b as int)]))
  {
    LittleEndian(a, b, c, d);
    var u := LeValue([a, b, c, d]);
    assert u == 65536 * (c as int + 256 * d as int) + (a as int + 256 * b as int);
    ModUnique(u, 65536, c as int + 256 * d as int, a as int + 256 * b as int);
    hide LeValue;
  }

  /** Global items with data of any size: the page and the report id (its low byte) as they
      are, sizes and counts as signed 32-bit numbers, the minimum as a signed number of its own
      width. */
  lemma GlobalsExactly(s: State, data: seq<byte>)
    requires s.Shaped() && ShortSize(|data|)
    ensures Step(s, Spec(1, 0, data).Parsed()) == s.(items := s.items.(usagePage := LeValue(data)))
    ensures Step(s, Spec(1, 1, data).Parsed()) == s.(items := s.items.(logicalMin := TwosComplement(data)))
    ensures Step(s, Spec(1, 8, data).Parsed())
            == s.(items := s.items.(reportId := if data == [] then 0 else data[0]), usesReportIds := true)
  {
    SignedValue(data);
    LowByte(data);
    hide SignExtend;
    hide LeValue;
    hide TwosComplement;
    hide HandleInput;
  }

  lemma SizesExactly(s: State, data: seq<byte>)
    requires s.Shaped() && ShortSize(|data|)
    ensures var n := if |data| == 4 then TwosComplement(data) else LeValue(data);
            && Step(s, Spec(1, 7, data).Parsed()) == s.(items := s.items.(reportSize := n))
            && Step(s, Spec(1, 9, data).Parsed()) == s.(items := s.items.(reportCount := n))
  {
    Signed32(data);
    hide LeValue;
    hide TwosComplement;
    hide ToInt32;
    hide HandleInput;
  }

  lemma Signed32(data: seq<byte>)
    requires ShortSize(|data|)
    ensures ToInt32(LeValue(data)) == if |data| == 4 then TwosComplement(data) else LeValue(data)
  {
    Spelled(data);
    hide LeValue;
  }

  lemma LowByte(data: seq<byte>)
    ensures LeValue(data) % 256 == if data == [] then 0 else data[0]
  {
    if data != [] {
      var rest := LeValue(data[1..]);
      assert LeValue(data) == data[0] + 256 * rest;
      hide LeValue;
      ModUnique(LeValue(data), 256, rest, data[0]);
    }
  }

  /** Items followed by one that ends early are refused, whatever the items were. */
  lemma CutIsRefused(specs: seq<Spec>, x: Spec, n: nat)
    requires AllOk(specs) && x.Ok() && n < |x.data|
    ensures var desc := PrintSpecs(specs) + PrintShort(x.typ, x.tag, x.data)[..1 + n];
            !ParseDescriptor(desc).parsed && !Accepted(desc)
  {
    hide PrintSpecs;
    hide PrintShort;
    hide StepAll;
    hide FetchItem;
    hide ParseDescriptor;
    ShortLength(x);
    var pre, cut := PrintSpecs(specs), PrintShort(x.typ, x.tag, x.data)[..1 + n];
    var none: seq<byte> := [];
    var s := InitialState();
    FetchCut(pre, x.typ, x.tag, x.data, n);
    assert |cut| == 1 + n;
    WalkSpecs(none, specs, cut, s);
    assert none + pre + cut == pre + cut;
    CompleteExactly(pre + cut);
  }

  lemma CompleteExactly(desc: seq<byte>)
    requires desc != []
    ensures ParseDescriptor(desc).parsed <==> WalkFrom(desc, 0, InitialState()).complete
  {
  }

  /** Collection (10) and End Collection (12) use up the usages before them; Output (9) and
      Feature (11) take no part, nor do globals, locals and types that the parser does not
      know. */
  lemma OtherItems(s: State, x: Spec)
    requires s.Shaped() && x.Ok()
    ensures x.typ == 0 && x.tag in {10, 12} ==>
              Step(s, x.Parsed()) == s.(items := s.items.(usages := [], hasUsageRange := false, usageMin := 0, usageMax := 0))
    ensures x.typ == 0 && x.tag !in {8, 10, 12} ==> Step(s, x.Parsed()) == s
    ensures x.typ == 1 && x.tag !in {0, 1, 7, 8, 9} ==> Step(s, x.Parsed()) == s
    ensures x.typ == 2 && x.tag !in {0, 1, 2} ==> Step(s, x.Parsed()) == s
    ensures x.typ == 3 ==> Step(s, x.Parsed()) == s
  {
    hide LeValue;
    hide HandleInput;
    hide SignExtend;
  }
}
