/** Slicing pending displacement into one report's worth, and printing that report. */
module InjectClock {
  import opened Bytes
  import opened HidBits
  import opened HidLayout
  import opened HidCodec
  import opened Wrappers

  datatype Config = Config(stepMaxX: int, stepMaxY: int, stepMaxWheel: int, backlogMax: int)

  const DEFAULT_CONFIG: Config := Config(96, 96, 1, 768)

  /** The buffer an injected report is built in. */
  const REPORT_CAP: nat := 64

  /** One axis of a slice: sent now, carried over, and thrown away. */
  datatype Split = Split(step: int, rest: int, dropped: int)

  datatype InjectStep = InjectStep(x: Split, y: Split, wheel: Split)

  function Max0(v: int): (m: int)
    ensures 0 <= m
  {
    if v < 0 then 0 else v
  }

  function SplitAxis(v: int, stepMax: int, backlogMax: int): Split {
    var s, b := Max0(stepMax), Max0(backlogMax);
    var step := if v > s then s else if v < -s then -s else v;
    var r := v - step;
    if r > b then Split(step, b, r - b)
    else if r < -b then Split(step, -b, r + b)
    else Split(step, r, 0)
  }

  function Plan(cfg: Config, dx: int, dy: int, wheel: int): InjectStep {
    InjectStep(SplitAxis(dx, cfg.stepMaxX, cfg.backlogMax),
               SplitAxis(dy, cfg.stepMaxY, cfg.backlogMax),
               SplitAxis(wheel, cfg.stepMaxWheel, cfg.stepMaxWheel))
  }

  /** |a| <= |b| and a never points the other way. */
  predicate Toward(a: int, b: int) {
    if b >= 0 then 0 <= a <= b else b <= a <= 0
  }

  /** Slicing loses nothing it does not report, respects both limits, never turns
      back, holds nothing back below the step limit, drops only a full backlog,
      and stays inside the 32-bit range of its input. */
  lemma SplitLaws(v: int, stepMax: int, backlogMax: int)
    ensures var t, s, b := SplitAxis(v, stepMax, backlogMax), Max0(stepMax), Max0(backlogMax);
            && v == t.step + t.rest + t.dropped
            && -s <= t.step <= s && -b <= t.rest <= b
            && Toward(t.step, v) && Toward(t.rest, v) && Toward(t.dropped, v)
            && (t.rest != 0 || t.dropped != 0 ==> t.step == s || t.step == -s)
            && (t.dropped != 0 ==> t.rest == b || t.rest == -b)
            && (InRange(v, 4) ==> InRange(t.step, 4) && InRange(t.rest, 4) && InRange(t.dropped, 4))
  {
  }

  // ---------------------------------------------------------------- building a report

  /** Division by 8 as C does it, towards zero. */
  function Div8(v: int): int {
    if v < 0 then -((-v) / 8) else v / 8
  }

  predicate OverlapBytes(a: Field, b: Field) {
    && a.present && b.present && a.bitOffset >= 0 && b.bitOffset >= 0
    && Div8(a.bitOffset) <= Div8(b.bitOffset + b.bitSize - 1)
    && Div8(b.bitOffset) <= Div8(a.bitOffset + a.bitSize - 1)
  }

  /** The safety gates on X and Y shared by the builder and the merge path. */
  predicate XyGates(lay: Layout) {
    && IsSafe(lay.x) && IsSafe(lay.y)
    && !OverlapBytes(lay.x, lay.buttons) && !OverlapBytes(lay.y, lay.buttons)
    && !OverlapBytes(lay.x, lay.wheel) && !OverlapBytes(lay.y, lay.wheel)
  }

  /** The report the builder fills: the displacement report, else the button report. */
  function SelectedLayout(d: Descriptor): (r: Option<Layout>)
    ensures r.Some? ==> r.value in d.layouts && r.value.valid && (r.value.HasXY() || r.value.HasButtons())
    ensures d.parsed ==> (r.Some? <==> d.Usable())
  {
    if d.XyLayout().Some? then d.XyLayout() else d.ButtonLayout()
  }

  function FillButtons(body: seq<byte>, lay: Layout, buttons: byte): Option<seq<byte>> {
    if lay.HasButtons() then WriteMask(body, lay.buttons, buttons) else Some(body)
  }

  function FillXY(body: seq<byte>, lay: Layout, dx: int, dy: int): Option<seq<byte>> {
    if !lay.HasXY() then Some(body)
    else if !XyGates(lay) then None
    else
      var withX :- WriteSigned(body, lay.x, dx);
      WriteSigned(withX, lay.y, dy)
  }

  function FillWheel(body: seq<byte>, lay: Layout, wheel: int): Option<seq<byte>> {
    if lay.wheel.present then WriteSigned(body, lay.wheel, wheel) else Some(body)
  }

  function FillBody(body: seq<byte>, lay: Layout, buttons: byte, step: InjectStep): Option<seq<byte>> {
    var b1 :- FillButtons(body, lay, buttons);
    var b2 :- FillXY(b1, lay, step.x.step, step.y.step);
    FillWheel(b2, lay, step.wheel.step)
  }

  function Zeros(n: nat): (s: seq<byte>)
    ensures |s| == n && forall i :: 0 <= i < n ==> s[i] == 0
  {
    seq(n, _ => 0)
  }

  function Prefix(d: Descriptor, lay: Layout): seq<byte> {
    if d.usesReportIds then [lay.reportId % 256] else []
  }

  /** The bytes the builder emits, or None when it refuses. */
  function BuildReport(d: Descriptor, buttons: byte, step: InjectStep, cap: nat): Option<seq<byte>> {
    if !d.parsed || SelectedLayout(d).None? then None
    else
      var lay := SelectedLayout(d).value;
      var total := lay.TotalBytes() + if d.usesReportIds then 1 else 0;
      // a negative size is a huge one as uint32_t, never below the capacity
      if lay.TotalBytes() < 0 || total == 0 || total > cap then None
      else
        var body :- FillBody(Zeros(lay.TotalBytes()), lay, buttons, step);
        Some(Prefix(d, lay) + body)
  }

  /** The body part of inject_clock_build_report, on out[at..at + len]. */
  method FillInPlace(out: array<byte>, at: nat, len: nat, lay: Layout, buttons: byte, step: InjectStep)
    returns (ok: bool)
    requires at + len <= out.Length
    modifies out
    ensures out[..at] == old(out[..at]) && out[at + len..] == old(out[at + len..])
    ensures ok == FillBody(old(out[at..at + len]), lay, buttons, step).Some?
    ensures ok ==> out[at..at + len] == FillBody(old(out[at..at + len]), lay, buttons, step).value
  {
    if lay.HasButtons() {
      ok := FieldWriteMask(out, at, len, lay.buttons, buttons);
      if !ok { return false; }
    }
    if lay.HasXY() {
      if !IsSafe(lay.x) || !IsSafe(lay.y) { return false; }
      if OverlapBytes(lay.x, lay.buttons) || OverlapBytes(lay.y, lay.buttons)
         || OverlapBytes(lay.x, lay.wheel) || OverlapBytes(lay.y, lay.wheel) { return false; }
      ok := FieldWriteSigned(out, at, len, lay.x, step.x.step);
      if !ok { return false; }
      ok := FieldWriteSigned(out, at, len, lay.y, step.y.step);
      if !ok { return false; }
    }
    if lay.wheel.present {
      ok := FieldWriteSigned(out, at, len, lay.wheel, step.wheel.step);
      if !ok { return false; }
    }
    return true;
  }

  /** memset, then the report id byte when the device uses report ids. */
  method ClearReport(d: Descriptor, lay: Layout, out: array<byte>, at: nat, total: nat)
    requires at <= total <= out.Length && at == |Prefix(d, lay)|
    modifies out
    ensures out[..at] == Prefix(d, lay) && out[at..total] == Zeros(total - at)
    ensures out[total..] == old(out[total..])
  {
    forall i | 0 <= i < total { out[i] := 0; }
    if d.usesReportIds { out[0] := lay.reportId % 256; }
  }

  /** inject_clock_build_report. */
  method BuildInPlace(d: Descriptor, buttons: byte, step: InjectStep, out: array<byte>, cap: nat)
    returns (ok: bool, outLen: nat)
    requires cap <= out.Length
    modifies out
    ensures ok == BuildReport(d, buttons, step, cap).Some?
    ensures ok ==> outLen <= cap && out[..outLen] == BuildReport(d, buttons, step, cap).value
    ensures ok ==> out[outLen..] == old(out[outLen..])
    ensures out[cap..] == old(out[cap..])
  {
    hide FillBody;
    outLen := 0;
    if !d.parsed { return false, 0; }
    var choice := d.XyLayout();
    if choice.None? { choice := d.ButtonLayout(); }
    if choice.None? { return false, 0; }
    var lay := choice.value;
    var bodyLen := lay.TotalBytes();
    var at := if d.usesReportIds then 1 else 0;
    var total := bodyLen + at;
    if bodyLen < 0 || total == 0 || total > cap { return false, 0; }
    ClearReport(d, lay, out, at, total);
    ok := FillInPlace(out, at, bodyLen, lay, buttons, step);
    assert out[cap..] == out[total..][cap - total..];
    if ok {
      assert out[..total] == out[..at] + out[at..at + bodyLen];
      return true, total;
    }
  }
}
