/** One concrete device: its axes in report 1, its buttons in report 2. */
module SplitMouse {
  import opened Bytes
  import opened HidLayout
  import opened HidInvariant
  import opened InjectClock
  import opened Wrappers
  import opened WheellessMouse
  import MergeReport
  import opened ReportRoundTrip
  import opened ReportDispatch
  import B = ButtonPublication
  import opened ButtonReports

  /** Report 1: X and Y, eight signed bits each. Report 2: sixteen buttons. */
  const SPLIT: seq<byte> := [0x05, 0x01, 0x85, 0x01, 0x15, 0x81, 0x75, 0x08, 0x95, 0x02, 0x09, 0x30, 0x09, 0x31,
                             0x81, 0x06, 0x05, 0x09, 0x85, 0x02, 0x81, 0x02]

  predicate SpellsSplit(d: seq<byte>) {
    && |d| == 22
    && d[0] == 0x05 && d[1] == 0x01    // Usage Page (Generic Desktop)
    && d[2] == 0x85 && d[3] == 0x01    // Report ID (1)
    && d[4] == 0x15 && d[5] == 0x81    // Logical Minimum (-127)
    && d[6] == 0x75 && d[7] == 0x08    // Report Size (8)
    && d[8] == 0x95 && d[9] == 0x02    // Report Count (2)
    && d[10] == 0x09 && d[11] == 0x30  // Usage (X)
    && d[12] == 0x09 && d[13] == 0x31  // Usage (Y)
    && d[14] == 0x81 && d[15] == 0x06  // Input (Data, Variable, Relative)
    && d[16] == 0x05 && d[17] == 0x09  // Usage Page (Button)
    && d[18] == 0x85 && d[19] == 0x02  // Report ID (2)
    && d[20] == 0x81 && d[21] == 0x02  // Input (Data, Variable, Absolute)
  }

  lemma AxisItems(d: seq<byte>, s: State)
    requires SpellsSplit(d) && s.Shaped() && s.items == NO_ITEMS
    ensures WalkFrom(d, 0, s) == WalkFrom(d, 14, s.(items := AxesListed(), usesReportIds := true))
  {
    hide WalkFrom;
    hide HandleInput;
    assert SignExtend(0x81, 1) == -127 by {
      Pow2Add(4, 3);
      Pow2Add(4, 4);
    }
    hide SignExtend;
    var x, y := Usage(1, 0x30), Usage(1, 0x31);
    assert [] + [x] == [x] && [x] + [y] == [x, y];
    var t := s.(usesReportIds := true);
    WalkOne(d, 0, s, 1, 0);
    WalkOne(d, 2, s.(items := Items(1, 0, 0, 0, 0, [], false, 0, 0)), 1, 8);
    WalkOne(d, 4, t.(items := Items(1, 0, 0, 0, 1, [], false, 0, 0)), 1, 1);
    WalkOne(d, 6, t.(items := Items(1, 0, 0, -127, 1, [], false, 0, 0)), 1, 7);
    WalkOne(d, 8, t.(items := Items(1, 8, 0, -127, 1, [], false, 0, 0)), 1, 9);
    WalkOne(d, 10, t.(items := Items(1, 8, 2, -127, 1, [], false, 0, 0)), 2, 0);
    WalkOne(d, 12, t.(items := Items(1, 8, 2, -127, 1, [x], false, 0, 0)), 2, 0);
  }

  function AxesListed(): Items {
    Items(1, 8, 2, -127, 1, [Usage(1, 0x30), Usage(1, 0x31)], false, 0, 0)
  }

  function AfterAxes(s: State): State
    requires s.Shaped()
  {
    HandleInput(s.(items := AxesListed(), usesReportIds := true), 0x06)
  }

  function AfterButtons(s: State): State
    requires s.Shaped()
  {
    HandleInput(AfterAxes(s).(items := Items(9, 8, 2, -127, 2, [], false, 0, 0)), 0x02)
  }

  /** The items that select report 2, once the axes are placed. */
  lemma SelectButtons(d: seq<byte>, s: State)
    requires SpellsSplit(d) && s.Shaped() && s.usesReportIds && s.items == Items(1, 8, 2, -127, 1, [], false, 0, 0)
    ensures WalkFrom(d, 16, s) == Walk(true, HandleInput(s.(items := Items(9, 8, 2, -127, 2, [], false, 0, 0)), 0x02))
  {
    hide HandleInput;
    hide WalkFrom;
    var t := s.(items := Items(9, 8, 2, -127, 2, [], false, 0, 0));
    WalkOne(d, 16, s, 1, 0);
    WalkOne(d, 18, s.(items := Items(9, 8, 2, -127, 1, [], false, 0, 0)), 1, 8);
    WalkOne(d, 20, t, 0, 8);
    WalkEnds(d, HandleInput(t, 0x02));
  }

  lemma ButtonItems(d: seq<byte>, s: State)
    requires SpellsSplit(d) && s.Shaped()
    ensures WalkFrom(d, 14, s.(items := AxesListed(), usesReportIds := true)) == Walk(true, AfterButtons(s))
  {
    hide HandleInput;
    hide WalkFrom;
    AxesItemsAfter(s);
    SelectButtons(d, AfterAxes(s));
    WalkOne(d, 14, s.(items := AxesListed(), usesReportIds := true), 0, 8);
  }

  lemma WalkEnds(d: seq<byte>, s: State)
    requires s.Shaped()
    ensures WalkFrom(d, |d|, s) == Walk(true, s)
  {
  }

  lemma AxesItemsAfter(s: State)
    requires s.Shaped()
    ensures AfterAxes(s).items == Items(1, 8, 2, -127, 1, [], false, 0, 0) && AfterAxes(s).usesReportIds
  {
  }

  const AXES: Layout := Layout(true, 1, 0, ABSENT, Field(true, 0, 8, true), Field(true, 8, 8, true), ABSENT)

  lemma AxesPlaced(s: State)
    requires s == InitialState()
    ensures var t := AfterAxes(s);
            t.layouts == s.layouts[1 := AXES] && t.cursor == s.cursor[1 := 16] && t.seen == s.seen[1 := true]
  {
    var lay := NO_LAYOUT.(valid := true, reportId := 1);
    var us := AxesListed().usages;
    assert AssignListed(lay, us, 1, 0, 8, true) == lay.(x := Field(true, 0, 8, true));
    assert AssignListed(lay, us, 2, 0, 8, true) == lay.(x := Field(true, 0, 8, true), y := Field(true, 8, 8, true));
  }

  lemma ButtonsPlaced(s: State)
    requires s == InitialState()
    ensures var t := AfterButtons(s);
            && t.layouts[0] == NO_LAYOUT && t.layouts[1] == AXES && t.cursor[1] == 16 && !t.seen[0] && t.seen[1]
            && t.usesReportIds && forall r: nat :: r < MAX_REPORT_ID && r != 1 ==> !t.layouts[r].HasXY()
  {
    AxesPlaced(s);
  }

  lemma {:induction false} CountPositive(seen: seq<bool>, n: nat)
    requires 2 <= n <= |seen| && seen[1]
    ensures CountSeen(seen, n) >= 1
  {
    if n > 2 {
      CountPositive(seen, n - 1);
    }
  }

  predicate OnlyFirstHasAxes(d: Descriptor) {
    |d.layouts| == MAX_REPORT_ID && d.layouts[1] == AXES.(totalBits := 16)
    && forall r: nat :: r < MAX_REPORT_ID && r != 1 ==> !d.layouts[r].HasXY()
  }

  /** A physical report of this device is read with the axes when it begins with 1, and is
      never merged into when it begins with anything else: [2, a, b], the buttons, stays. */
  lemma ButtonReportsStay(report: seq<byte>, dx: int, dy: int, wheel: int)
    requires report != []
    ensures var d := ParseDescriptor(SPLIT);
            && Accepted(SPLIT) && d.usesReportIds
            && (report[0] == 1 && |report| > 1 ==>
                  LayoutForReport(d, true, report) == Some(Located(AXES.(totalBits := 16), report[1..])))
            && (report[0] != 1 ==>
                  && (LayoutForReport(d, true, report).Some? ==>
                        !MergeReport.Admits(LayoutForReport(d, true, report).value.lay, |report| - 1))
                  && MergedReport(d, true, report, dx, dy, wheel) == report)
  {
    hide Accepted;
    assert SpellsSplit(SPLIT);
    SplitParse(SPLIT);
    ParserInvariant(SPLIT);
    LocatedExactly(ParseDescriptor(SPLIT), true, report);
    hide LayoutForReport;
    hide ParseDescriptor;
  }

  /** The parser accepts the descriptor and picks report 1, which has no buttons. */
  lemma SplitParse(d: seq<byte>)
    requires SpellsSplit(d)
    ensures Accepted(d) && ParseDescriptor(d).usesReportIds
    ensures SelectedLayout(ParseDescriptor(d)) == Some(AXES.(totalBits := 16))
    ensures OnlyFirstHasAxes(ParseDescriptor(d))
  {
    hide HandleInput;
    hide WalkFrom;
    var s := InitialState();
    AxisItems(d, s);
    ButtonItems(d, s);
    ButtonsPlaced(s);
    var t := AfterButtons(s);
    CountPositive(t.seen, MAX_REPORT_ID);
    hide AfterButtons;
    SplitResult(t);
  }

  lemma SplitResult(t: State)
    requires t.Shaped() && t.layouts[1] == AXES && t.cursor[1] == 16 && t.seen[1]
    requires forall r: nat :: r < MAX_REPORT_ID && r != 1 ==> !t.layouts[r].HasXY()
    ensures SelectedLayout(Result(Walk(true, t))) == Some(AXES.(totalBits := 16))
    ensures OnlyFirstHasAxes(Result(Walk(true, t)))
  {
    var d := Result(Walk(true, t));
    assert d.layouts[1] == AXES.(totalBits := 16);
    assert d.layouts[1] in d.layouts;
    assert d.XyLayout().Some?;
  }

  /** What is built for the mask of one press is built for no press at all. */
  lemma PressIsNotBuilt(st: InjectStep) returns (report: seq<byte>)
    ensures Accepted(SPLIT) && !CarriesButtons(SPLIT) && HostButtons(SPLIT, report) == None
    ensures BuildReport(ParseDescriptor(SPLIT), 0, st, REPORT_CAP) == Some(report)
    ensures BuiltFor(SPLIT, report, 1)
  {
    hide Accepted;
    hide BuildReport;
    hide HostButtons;
    assert SpellsSplit(SPLIT);
    SplitParse(SPLIT);
    var d := ParseDescriptor(SPLIT);
    ParserInvariant(SPLIT);
    MergeReport.BuilderAcceptsExactly(d, 0, st, REPORT_CAP);
    ReportButtons(SPLIT, 0, st);
    report := BuildReport(d, 0, st, REPORT_CAP).value;
    assert BuildReport(d, 1, st, REPORT_CAP) == Some(report);
  }

  /** A press that is announced, posted and accepted, and that the host never sees: the
      tick thread is up to date, the mask holds the button, and the report is byte for byte
      the one that is built from an empty mask. */
  lemma PressNeverArrives(st: InjectStep) returns (report: seq<byte>)
    ensures Accepted(SPLIT) && !CarriesButtons(SPLIT)
    ensures BuildReport(ParseDescriptor(SPLIT), 0, st, REPORT_CAP) == Some(report)
    ensures var run := [B.StartTicker, B.LoadMask(0, 1, B.Down), B.StoreMask(0), B.Bump(0), B.ReadSeq, B.ReadMask,
                        B.PostAccepted(report)];
            && B.CanRun(B.Start(1), run) && PostsBuilt(B.Start(1), run, SPLIT)
            && var s := B.Run(B.Start(1), run);
               && B.UpToDate(s) && B.Settled(s) && B.Pressed(s.mask, 1) && s.posted == Some(B.Posted(s.mask, report))
               && HostButtons(SPLIT, report) == None
  {
    hide Accepted;
    hide CarriesButtons;
    hide HostButtons;
    hide BuiltFor;
    hide BuildReport;
    hide ParseDescriptor;
    hide B.CanRun;
    hide PostsBuilt;
    hide B.Run;
    report := PressIsNotBuilt(st);
    PressRun(report);
  }

  lemma PressRun(report: seq<byte>)
    requires BuiltFor(SPLIT, report, 1)
    ensures var run := [B.StartTicker, B.LoadMask(0, 1, B.Down), B.StoreMask(0), B.Bump(0), B.ReadSeq, B.ReadMask,
                        B.PostAccepted(report)];
            && B.CanRun(B.Start(1), run) && PostsBuilt(B.Start(1), run, SPLIT)
            && var s := B.Run(B.Start(1), run);
               B.UpToDate(s) && B.Settled(s) && B.Pressed(s.mask, 1) && s.posted == Some(B.Posted(s.mask, report))
  {
    hide BuiltFor;
    var a1, a2, a3, a4 := B.LoadMask(0, 1, B.Down), B.StoreMask(0), B.Bump(0), B.ReadSeq;
    var a5, a6 := B.ReadMask, B.PostAccepted(report);
    PressStates(report);
    hide B.Apply;
    hide B.Enabled;
    hide B.NextMask;
    PostStep(Pressing(1, 1, B.Ready, B.SawMask(1, 1), 0, None), a6, []);
    PostStep(Pressing(1, 1, B.Ready, B.SawSeq(1), 0, None), a5, [a6]);
    PostStep(Pressing(1, 1, B.Ready, B.Asleep, 0, None), a4, [a5, a6]);
    PostStep(Pressing(1, 0, B.Stored, B.Asleep, 0, None), a3, [a4, a5, a6]);
    PostStep(Pressing(0, 0, B.Loaded(0, 1, B.Down), B.Asleep, 0, None), a2, [a3, a4, a5, a6]);
    PostStep(Pressing(0, 0, B.Ready, B.Asleep, 0, None), a1, [a2, a3, a4, a5, a6]);
    PostStep(B.Start(1), B.StartTicker, [a1, a2, a3, a4, a5, a6]);
  }

  function Pressing(mask: B.Mask, number: nat, conn: B.Connection, ticker: B.Ticker, last: nat, posted: Option<B.Posted>): B.State {
    B.State.State(mask, number, [conn], ticker, 0, last, posted)
  }

  /** The states of that run, one after the other. */
  lemma PressStates(report: seq<byte>)
    ensures B.Start(1).ticker.NotStarted?
    ensures B.Apply(B.Start(1), B.StartTicker) == Pressing(0, 0, B.Ready, B.Asleep, 0, None)
    ensures B.Apply(Pressing(0, 0, B.Ready, B.Asleep, 0, None), B.LoadMask(0, 1, B.Down))
            == Pressing(0, 0, B.Loaded(0, 1, B.Down), B.Asleep, 0, None)
    ensures B.Apply(Pressing(0, 0, B.Loaded(0, 1, B.Down), B.Asleep, 0, None), B.StoreMask(0))
            == Pressing(1, 0, B.Stored, B.Asleep, 0, None)
    ensures B.Apply(Pressing(1, 0, B.Stored, B.Asleep, 0, None), B.Bump(0)) == Pressing(1, 1, B.Ready, B.Asleep, 0, None)
    ensures B.Apply(Pressing(1, 1, B.Ready, B.Asleep, 0, None), B.ReadSeq) == Pressing(1, 1, B.Ready, B.SawSeq(1), 0, None)
    ensures B.Apply(Pressing(1, 1, B.Ready, B.SawSeq(1), 0, None), B.ReadMask)
            == Pressing(1, 1, B.Ready, B.SawMask(1, 1), 0, None)
    ensures B.Apply(Pressing(1, 1, B.Ready, B.SawMask(1, 1), 0, None), B.PostAccepted(report))
            == Pressing(1, 1, B.Ready, B.Asleep, 1, Some(B.Posted(1, report)))
  {
  }

  lemma PostStep(s: B.State, a: B.Action, rest: seq<B.Action>)
    requires B.Enabled(s, a) && B.CanRun(B.Apply(s, a), rest) && PostsBuilt(B.Apply(s, a), rest, SPLIT)
    requires a.PostAccepted? ==> BuiltFor(SPLIT, a.report, s.ticker.mask as int)
    ensures B.CanRun(s, [a] + rest) && PostsBuilt(s, [a] + rest, SPLIT)
    ensures B.Run(s, [a] + rest) == B.Run(B.Apply(s, a), rest)
  {
    hide BuiltFor;
    hide B.Enabled;
    hide B.Apply;
    assert ([a] + rest)[1..] == rest;
  }
}
