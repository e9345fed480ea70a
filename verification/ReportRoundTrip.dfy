/** Parse, build, decode: what the host reads out of an injected report is what was
    put in, for every descriptor the parser accepts. */
module ReportRoundTrip {
  import opened Bytes
  import opened HidBits
  import opened HidLayout
  import opened HidInvariant
  import opened HidCodec
  import opened HidFieldLaws
  import opened InjectClock
  import opened Wrappers

  datatype Located = Located(lay: Layout, body: seq<byte>)

  /** layout_for_report: which layout a report belongs to, and where its body starts. */
  function LayoutForReport(d: Descriptor, usable: bool, report: seq<byte>): Option<Located>
    requires |d.layouts| == MAX_REPORT_ID
  {
    var off := if d.usesReportIds then 1 else 0;
    if report == [] || !usable || |report| <= off then None
    else
      match d.Find(if d.usesReportIds then report[0] else 0)
      case None => None
      case Some(lay) => Some(Located(lay, report[off..]))
  }

  /** The fields the builder writes, in the layout's own order. */
  function WrittenFields(lay: Layout): seq<Field> {
    (if lay.HasButtons() then [lay.buttons] else [])
    + (if lay.HasXY() then [lay.x, lay.y] else [])
    + (if lay.wheel.present then [lay.wheel] else [])
  }

  predicate InField(i: int, f: Field) {
    f.bitOffset <= i < f.bitOffset + f.bitSize
  }

  /** Every bit outside the written fields is as it was in `start`. */
  ghost predicate OnlyFieldsChanged(start: seq<byte>, body: seq<byte>, lay: Layout) {
    && |body| == |start|
    && forall i: nat :: i < 8 * |body| && (forall f :: f in WrittenFields(lay) ==> !InField(i, f)) ==>
         Bit(body, i) == Bit(start, i)
  }

  /** The body says exactly: these buttons, this step. */
  ghost predicate Says(body: seq<byte>, lay: Layout, buttons: byte, step: InjectStep) {
    && (lay.HasButtons() ==> ReadMask(body, lay.buttons) == Some(buttons % Pow2(lay.buttons.bitSize)))
    && (lay.HasXY() ==>
          && IsSafe(lay.x) && IsSafe(lay.y)
          && ReadSigned(body, lay.x) == Some(Clamp(step.x.step, lay.x.bitSize / 8))
          && ReadSigned(body, lay.y) == Some(Clamp(step.y.step, lay.y.bitSize / 8)))
    && (lay.wheel.present ==>
          && IsSafe(lay.wheel)
          && ReadSigned(body, lay.wheel) == Some(Clamp(step.wheel.step, lay.wheel.bitSize / 8)))
  }

  /** One stage of the builder: f is written, disjoint g's are untouched. */
  lemma ButtonsStage(body: seq<byte>, lay: Layout, bits: int, buttons: byte)
    requires FieldsFit(lay, bits) && FillButtons(body, lay, buttons).Some?
    ensures var b1 := FillButtons(body, lay, buttons).value;
            && |b1| == |body|
            && (lay.HasButtons() ==> ReadMask(b1, lay.buttons) == Some(buttons % Pow2(lay.buttons.bitSize)))
            && forall i: nat :: i < 8 * |body| && !(lay.HasButtons() && InField(i, lay.buttons)) ==>
                 Bit(b1, i) == Bit(body, i)
  {
    if lay.HasButtons() {
      WriteMaskReplacesBits(body, lay.buttons, buttons);
    }
  }

  lemma XyStage(body: seq<byte>, lay: Layout, bits: int, dx: int, dy: int)
    requires FieldsFit(lay, bits) && FillXY(body, lay, dx, dy).Some?
    ensures var b2 := FillXY(body, lay, dx, dy).value;
            && |b2| == |body|
            && (lay.HasXY() ==>
                  && IsSafe(lay.x) && IsSafe(lay.y)
                  && ReadSigned(b2, lay.x) == Some(Clamp(dx, lay.x.bitSize / 8))
                  && ReadSigned(b2, lay.y) == Some(Clamp(dy, lay.y.bitSize / 8)))
            && (lay.HasButtons() ==> ReadMask(b2, lay.buttons) == ReadMask(body, lay.buttons))
            && forall i: nat :: i < 8 * |body| && !(lay.HasXY() && (InField(i, lay.x) || InField(i, lay.y))) ==>
                 Bit(b2, i) == Bit(body, i)
  {
    if lay.HasXY() {
      var bx := WriteSigned(body, lay.x, dx).value;
      WriteSignedReplacesBits(body, lay.x, dx);
      WriteSignedReplacesBits(bx, lay.y, dy);
      var b2 := FillXY(body, lay, dx, dy).value;
      OtherFieldKept(bx, b2, lay.y, lay.x);
      if lay.HasButtons() {
        OtherFieldKept(body, bx, lay.x, lay.buttons);
        OtherFieldKept(bx, b2, lay.y, lay.buttons);
      }
    }
  }

  lemma WheelStage(body: seq<byte>, lay: Layout, bits: int, w: int)
    requires FieldsFit(lay, bits) && FillWheel(body, lay, w).Some?
    ensures var b3 := FillWheel(body, lay, w).value;
            && |b3| == |body|
            && (lay.wheel.present ==>
                  IsSafe(lay.wheel) && ReadSigned(b3, lay.wheel) == Some(Clamp(w, lay.wheel.bitSize / 8)))
            && (lay.HasButtons() ==> ReadMask(b3, lay.buttons) == ReadMask(body, lay.buttons))
            && (lay.HasXY() ==> ReadSigned(b3, lay.x) == ReadSigned(body, lay.x)
                                && ReadSigned(b3, lay.y) == ReadSigned(body, lay.y))
            && forall i: nat :: i < 8 * |body| && !(lay.wheel.present && InField(i, lay.wheel)) ==>
                 Bit(b3, i) == Bit(body, i)
  {
    if lay.wheel.present {
      WriteSignedReplacesBits(body, lay.wheel, w);
      var b3 := FillWheel(body, lay, w).value;
      if lay.HasButtons() {
        OtherFieldKept(body, b3, lay.wheel, lay.buttons);
      }
      if lay.HasXY() {
        OtherFieldKept(body, b3, lay.wheel, lay.x);
        OtherFieldKept(body, b3, lay.wheel, lay.y);
      }
    }
  }

  lemma FillBodySays(body: seq<byte>, lay: Layout, bits: int, buttons: byte, step: InjectStep)
    requires FieldsFit(lay, bits) && FillBody(body, lay, buttons, step).Some?
    ensures Says(FillBody(body, lay, buttons, step).value, lay, buttons, step)
    ensures OnlyFieldsChanged(body, FillBody(body, lay, buttons, step).value, lay)
  {
    var b1 := FillButtons(body, lay, buttons).value;
    var b2 := FillXY(b1, lay, step.x.step, step.y.step).value;
    var b3 := FillWheel(b2, lay, step.wheel.step).value;
    ButtonsStage(body, lay, bits, buttons);
    XyStage(b1, lay, bits, step.x.step, step.y.step);
    WheelStage(b2, lay, bits, step.wheel.step);
    forall i: nat | i < 8 * |body| && forall f :: f in WrittenFields(lay) ==> !InField(i, f)
      ensures Bit(b3, i) == Bit(body, i)
    {
      assert lay.HasButtons() ==> lay.buttons in WrittenFields(lay);
      assert lay.HasXY() ==> lay.x in WrittenFields(lay) && lay.y in WrittenFields(lay);
      assert lay.wheel.present ==> lay.wheel in WrittenFields(lay);
    }
  }

  lemma {:induction false} ZeroBits(v: nat, j: nat)
    requires v == 0
    ensures NatBit(v, j) == 0
  {
    if j > 0 {
      ZeroBits(v / 2, j - 1);
    }
  }

  lemma ZeroBit(body: seq<byte>, i: nat)
    requires i < 8 * |body| && body[i / 8] == 0
    ensures Bit(body, i) == 0
  {
    ZeroBits(body[i / 8], i % 8);
  }

  /** Well-formed layouts are found again by the id their reports start with. */
  lemma SelectedIsFound(d: Descriptor)
    requires WellFormed(d) && SelectedLayout(d).Some?
    ensures var lay := SelectedLayout(d).value;
            && 0 <= lay.reportId < MAX_REPORT_ID
            && d.Find(if d.usesReportIds then lay.reportId else 0) == Some(lay)
            && lay.TotalBytes() > 0 && FieldsFit(lay, lay.totalBits)
  {
    var lay := SelectedLayout(d).value;
    var r: nat :| r < MAX_REPORT_ID && d.layouts[r] == lay;
  }

  /** The round trip for every well-formed descriptor, buttons byte and step. */
  lemma BuildThenDecode(d: Descriptor, buttons: byte, step: InjectStep, cap: nat)
    requires WellFormed(d) && BuildReport(d, buttons, step, cap).Some?
    ensures d.Usable()
    ensures var located := LayoutForReport(d, d.Usable(), BuildReport(d, buttons, step, cap).value);
            && located.Some? && Some(located.value.lay) == SelectedLayout(d)
            && |located.value.body| == located.value.lay.TotalBytes()
            && Says(located.value.body, located.value.lay, buttons, step)
            && forall i: nat :: i < 8 * |located.value.body|
                                && (forall f :: f in WrittenFields(located.value.lay) ==> !InField(i, f)) ==>
                 Bit(located.value.body, i) == 0
  {
    hide FillBody;
    hide Bit;
    hide Says;
    SelectedIsFound(d);
    var lay := SelectedLayout(d).value;
    var zeros := Zeros(lay.TotalBytes());
    var body := FillBody(zeros, lay, buttons, step).value;
    var report := BuildReport(d, buttons, step, cap).value;
    FillBodySays(zeros, lay, lay.totalBits, buttons, step);
    assert report == Prefix(d, lay) + body;
    assert report[|Prefix(d, lay)|..] == body;
    forall i: nat | i < 8 * |body|
      ensures Bit(zeros, i) == 0
    {
      ZeroBit(zeros, i);
    }
  }

  /** Steps cut with the default limits fit every field width, so they survive unchanged. */
  lemma DefaultStepsFit(dx: int, dy: int, wheel: int, n: nat)
    requires n == 1 || n == 2 || n == 4
    ensures var st := Plan(DEFAULT_CONFIG, dx, dy, wheel);
            Clamp(st.x.step, n) == st.x.step && Clamp(st.y.step, n) == st.y.step
            && Clamp(st.wheel.step, n) == st.wheel.step
  {
    SplitLaws(dx, 96, 768);
    SplitLaws(dy, 96, 768);
    SplitLaws(wheel, 1, 1);
  }

  /** The headline: for every accepted descriptor, every buttons byte and every pending
      displacement, a report the builder emits decodes to the same layout, the buttons
      masked to their width, and exactly the planned step. */
  lemma ParseBuildDecode(desc: seq<byte>, buttons: byte, dx: int, dy: int, wheel: int, cap: nat)
    requires Accepted(desc)
    requires BuildReport(ParseDescriptor(desc), buttons, Plan(DEFAULT_CONFIG, dx, dy, wheel), cap).Some?
    ensures var d, st := ParseDescriptor(desc), Plan(DEFAULT_CONFIG, dx, dy, wheel);
            var located := LayoutForReport(d, true, BuildReport(d, buttons, st, cap).value);
            && located.Some? && Some(located.value.lay) == SelectedLayout(d)
            && var lay, body := located.value.lay, located.value.body;
               && (lay.HasButtons() ==> ReadMask(body, lay.buttons) == Some(buttons % Pow2(lay.buttons.bitSize)))
               && (lay.HasXY() ==> ReadSigned(body, lay.x) == Some(st.x.step) && ReadSigned(body, lay.y) == Some(st.y.step))
               && (lay.wheel.present ==> ReadSigned(body, lay.wheel) == Some(st.wheel.step))
               && forall i: nat :: i < 8 * |body| && (forall f :: f in WrittenFields(lay) ==> !InField(i, f)) ==>
                    Bit(body, i) == 0
  {
    ParserInvariant(desc);
    var d, st := ParseDescriptor(desc), Plan(DEFAULT_CONFIG, dx, dy, wheel);
    BuildThenDecode(d, buttons, st, cap);
    var lay := SelectedLayout(d).value;
    if lay.HasXY() {
      DefaultStepsFit(dx, dy, wheel, lay.x.bitSize / 8);
      DefaultStepsFit(dx, dy, wheel, lay.y.bitSize / 8);
    }
    if lay.wheel.present {
      DefaultStepsFit(dx, dy, wheel, lay.wheel.bitSize / 8);
    }
  }
}
