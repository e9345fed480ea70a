/** Two concrete devices with two signed axes and no wheel: one of eight bits an axis, and
    one of thirty-two. */
module WheellessMouse {
  import opened Bytes
  import opened HidLayout
  import opened HidInvariant
  import opened InjectClock
  import MergeReport
  import opened HidCodec
  import opened HidFieldLaws
  import opened ReportRoundTrip
  import P = PendingProtocol
  import C = PendingConservation
  import Laws = PendingLaws
  import opened Wrappers

  /** X and Y, eight signed bits each, and nothing else. */
  const WHEELLESS: seq<byte> := [0x05, 0x01, 0x15, 0x81, 0x75, 0x08, 0x95, 0x02, 0x09, 0x30, 0x09, 0x31, 0x81, 0x06]

  /** The same with thirty-two bits an axis. */
  const WIDE: seq<byte> := [0x05, 0x01, 0x15, 0x81, 0x75, 0x20, 0x95, 0x02, 0x09, 0x30, 0x09, 0x31, 0x81, 0x06]

  predicate Spells(d: seq<byte>, size: byte) {
    && |d| == 14 && (size == 8 || size == 32)
    && d[0] == 0x05 && d[1] == 0x01    // Usage Page (Generic Desktop)
    && d[2] == 0x15 && d[3] == 0x81    // Logical Minimum (-127)
    && d[4] == 0x75 && d[5] == size    // Report Size
    && d[6] == 0x95 && d[7] == 0x02    // Report Count (2)
    && d[8] == 0x09 && d[9] == 0x30    // Usage (X)
    && d[10] == 0x09 && d[11] == 0x31  // Usage (Y)
    && d[12] == 0x81 && d[13] == 0x06  // Input (Data, Variable, Relative)
  }

  /** Walking over one item with a single data byte. */
  lemma WalkOne(desc: seq<byte>, i: nat, s: State, typ: nat, tag: nat)
    requires i + 1 < |desc| && s.Shaped() && typ < 4 && tag < 15
    requires desc[i] as int == 1 + 4 * typ + 16 * tag
    ensures WalkFrom(desc, i, s) == WalkFrom(desc, i + 2, Step(s, ShortItem(typ, tag, 1, desc[i + 1])))
  {
    hide Step;
    var data := desc[i + 1..i + 2];
    assert data[1..] == [] && LeValue(data) == data[0] + 256 * LeValue(data[1..]);
  }

  function Sized(size: int, usages: seq<Usage>): Items {
    Items(1, size, 2, -127, 0, usages, false, 0, 0)
  }

  lemma Globals(d: seq<byte>, size: byte, s: State)
    requires Spells(d, size) && s.Shaped() && s.items == NO_ITEMS
    ensures WalkFrom(d, 0, s) == WalkFrom(d, 8, s.(items := Sized(size, [])))
  {
    hide WalkFrom;
    hide HandleInput;
    assert SignExtend(0x81, 1) == -127 by {
      Pow2Add(4, 3);
      Pow2Add(4, 4);
    }
    hide SignExtend;
    WalkOne(d, 0, s, 1, 0);
    WalkOne(d, 2, s.(items := Items(1, 0, 0, 0, 0, [], false, 0, 0)), 1, 1);
    WalkOne(d, 4, s.(items := Items(1, 0, 0, -127, 0, [], false, 0, 0)), 1, 7);
    WalkOne(d, 6, s.(items := Items(1, size, 0, -127, 0, [], false, 0, 0)), 1, 9);
  }

  lemma Usages(d: seq<byte>, size: byte, s: State)
    requires Spells(d, size) && s.Shaped() && s.items == Sized(size, [])
    ensures WalkFrom(d, 8, s) == Walk(true, HandleInput(s.(items := Sized(size, [Usage(1, 0x30), Usage(1, 0x31)])), 0x06))
  {
    hide HandleInput;
    var x, y := Usage(1, 0x30), Usage(1, 0x31);
    assert [] + [x] == [x] && [x] + [y] == [x, y];
    var s1 := s.(items := Sized(size, [x]));
    var s2 := s.(items := Sized(size, [x, y]));
    WalkOne(d, 8, s, 2, 0);
    WalkOne(d, 10, s1, 2, 0);
    WalkOne(d, 12, s2, 0, 8);
    assert WalkFrom(d, 14, HandleInput(s2, 0x06)) == Walk(true, HandleInput(s2, 0x06));
  }

  function TwoAxes(size: int, totalBits: int): Layout {
    Layout(true, 0, totalBits, ABSENT, Field(true, 0, size, true), Field(true, size, size, true), ABSENT)
  }

  lemma TwoAxesParse(d: seq<byte>, size: byte)
    requires Spells(d, size)
    ensures Accepted(d) && !ParseDescriptor(d).usesReportIds
    ensures ParseDescriptor(d).layouts[0] == TwoAxes(size, 2 * size as int)
    ensures SelectedLayout(ParseDescriptor(d)) == Some(TwoAxes(size, 2 * size as int))
  {
    hide HandleInput;
    hide WalkFrom;
    var s := InitialState();
    Globals(d, size, s);
    Usages(d, size, s.(items := Sized(size, [])));
    var t := s.(items := Sized(size, [Usage(1, 0x30), Usage(1, 0x31)]));
    AxesInput(t, size);
    AxesResult(HandleInput(t, 0x06), size);
  }

  lemma AxesInput(s: State, size: byte)
    requires s.Shaped() && s.items == Sized(size, [Usage(1, 0x30), Usage(1, 0x31)]) && (size == 8 || size == 32)
    requires s.cursor == InitialState().cursor && s.layouts == InitialState().layouts && s.seen == InitialState().seen
    ensures var t := HandleInput(s, 0x06);
            && t.cursor == s.cursor[0 := 2 * size as int] && t.seen == s.seen[0 := true] && t.usesReportIds == s.usesReportIds
            && t.layouts == s.layouts[0 := TwoAxes(size, 0)]
  {
    var lay := NO_LAYOUT.(valid := true, reportId := 0);
    var us := s.items.usages;
    assert AssignListed(lay, us, 1, 0, size, true) == lay.(x := Field(true, 0, size, true));
    assert AssignListed(lay, us, 2, 0, size, true) == lay.(x := Field(true, 0, size, true), y := Field(true, size, size, true));
  }

  lemma {:induction false} CountOne(seen: seq<bool>, n: nat)
    requires 1 <= n <= |seen| && seen[0] && forall r :: 0 < r < |seen| ==> !seen[r]
    ensures CountSeen(seen, n) == 1
  {
    if n == 1 {
      assert CountSeen(seen, 0) == 0;
    } else {
      CountOne(seen, n - 1);
    }
  }

  lemma AxesResult(s: State, size: byte)
    requires s.Shaped() && s.cursor[0] == 2 * size as int && s.seen == InitialState().seen[0 := true] && !s.usesReportIds
    requires s.layouts[0] == TwoAxes(size, 0)
    ensures var d := Result(Walk(true, s));
            && d.parsed && d.layoutCount == 1 && !d.usesReportIds
            && d.layouts[0] == TwoAxes(size, 2 * size as int)
            && SelectedLayout(d) == Some(TwoAxes(size, 2 * size as int))
  {
    CountOne(s.seen, MAX_REPORT_ID);
  }

  /** The wheel law fails without a wheel field: for this accepted descriptor a report
      carrying a wheel step of one is built and accepted, and the host reads no wheel. */
  lemma WheelLostWithoutField()
    ensures Accepted(WHEELLESS) && Laws.CarriesXY(WHEELLESS) && !Laws.CarriesWheel(WHEELLESS)
    ensures var d, st := ParseDescriptor(WHEELLESS), Plan(DEFAULT_CONFIG, 0, 0, 1);
            && st.wheel == Split(1, 0, 0)
            && BuildReport(d, 0, st, REPORT_CAP).Some?
            && P.Decoded(d, BuildReport(d, 0, st, REPORT_CAP).value).w == 0
  {
    assert Spells(WHEELLESS, 8);
    TwoAxesParse(WHEELLESS, 8);
    ParserInvariant(WHEELLESS);
    var d, st := ParseDescriptor(WHEELLESS), Plan(DEFAULT_CONFIG, 0, 0, 1);
    MergeReport.BuilderAcceptsExactly(d, 0, st, REPORT_CAP);
    C.PostDecodes(WHEELLESS, 0, st);
  }

  /** A report of the wide device whose X is at the largest value it can say. */
  predicate AtItsEnd(report: seq<byte>) {
    |report| == 8 && ReadSigned(report, TwoAxes(32, 64).x) == Some(0x7fff_ffff)
  }

  lemma WideReport() returns (report: seq<byte>)
    ensures AtItsEnd(report)
  {
    var x := TwoAxes(32, 64).x;
    hide ReadSigned;
    hide WriteSigned;
    WriteSignedReplacesBits(Zeros(8), x, 0x7fff_ffff);
    report := WriteSigned(Zeros(8), x, 0x7fff_ffff).value;
  }

  lemma WideLocated(report: seq<byte>)
    requires |report| == 8
    ensures Accepted(WIDE) && P.RoleOk(P.Merge(WIDE, report))
    ensures P.MergeLocated(P.Merge(WIDE, report)) == Some(Located(TwoAxes(32, 64), report))
  {
    hide SelectedLayout;
    hide WalkFrom;
    assert Spells(WIDE, 32);
    TwoAxesParse(WIDE, 32);
    assert report[0..] == report;
    hide ParseDescriptor;
  }

  /** A report of the wide device is admitted to merging, and a step of one takes X from its
      largest value to its smallest. */
  lemma WideMouseJumpsBack() returns (report: seq<byte>)
    ensures Accepted(WIDE) && AtItsEnd(report) && P.RoleOk(P.Merge(WIDE, report))
    ensures P.MergeLocated(P.Merge(WIDE, report)) == Some(Located(TwoAxes(32, 64), report))
    ensures var m := MergeReport.MergeBody(report, TwoAxes(32, 64), 1, 0, 0);
            m.Written? && ReadSigned(m.body, TwoAxes(32, 64).x) == Some(-0x8000_0000)
  {
    hide ReadSigned;
    hide Accepted;
    hide P.RoleOk;
    hide P.MergeLocated;
    hide MergeReport.MergeBody;
    report := WideReport();
    WideLocated(report);
    MergeReport.WideFieldJumpsBack(report, TwoAxes(32, 64));
  }
}
