/** Which layout a physical report is read with, and what a merge leaves of the whole report,
    its id byte included. */
module ReportDispatch {
  import opened Bytes
  import opened HidBits
  import opened HidLayout
  import opened HidInvariant
  import opened HidCodec
  import opened InjectClock
  import opened ReportRoundTrip
  import opened MergeReport
  import opened Wrappers

  /** How many bytes stand before the body. */
  function PrefixLength(d: Descriptor): nat { if d.usesReportIds then 1 else 0 }

  /** The report id a report carries: its first byte, or 0 on a device without ids. */
  function IdOf(d: Descriptor, report: seq<byte>): nat
    requires report != []
  {
    if d.usesReportIds then report[0] else 0
  }

  /** A report is located exactly when the device is usable, the report is longer than its
      prefix and its id is one of the sixteen that has a layout; then it is read with that very
      layout, and its body is all that follows the prefix. */
  lemma LocatedExactly(d: Descriptor, usable: bool, report: seq<byte>)
    requires WellFormed(d)
    ensures var found := LayoutForReport(d, usable, report);
            && (found.Some? <==> usable && |report| > PrefixLength(d) && IdOf(d, report) < 16 && d.layouts[IdOf(d, report)].valid)
            && (found.Some? ==>
                  && found.value.lay == d.layouts[IdOf(d, report)]
                  && found.value.lay.reportId == IdOf(d, report)
                  && report == (if d.usesReportIds then [report[0]] else []) + found.value.body)
  {
  }

  // ------------------------------------------------------------ the whole report

  /** The report after mouse_control_merge_report, given the step that was taken. */
  function MergedReport(d: Descriptor, usable: bool, report: seq<byte>, dx: int, dy: int, wheel: int): (after: seq<byte>)
    requires |d.layouts| == MAX_REPORT_ID
  {
    match LayoutForReport(d, usable, report)
    case None => report
    case Some(loc) =>
      if !Admits(loc.lay, |loc.body|) then report
      else
        var m := MergeBody(loc.body, loc.lay, dx, dy, wheel);
        if m.Written? then report[..PrefixLength(d)] + m.body else report
  }

  /** The merge on all that follows the prefix. */
  method MergeBehind(buf: array<byte>, at: nat, lay: Layout, dx: int, dy: int, wheel: int)
    requires at <= buf.Length && Admits(lay, buf.Length - at) && FieldsFit(lay, lay.totalBits)
    modifies buf
    ensures var m := MergeBody(old(buf[at..]), lay, dx, dy, wheel);
            buf[..] == if m.Written? then old(buf[..at]) + m.body else old(buf[..])
  {
    hide Admits;
    hide MergeBody;
    hide FieldsFit;
    ghost var before := buf[..];
    assert buf[at..at + (buf.Length - at)] == buf[at..] == before[at..];
    AdmittedMergeExact(buf[at..], lay, dx, dy, wheel);
    var merged, stuck, wheelWritten := MergeInPlace(buf, at, buf.Length - at, lay, dx, dy, wheel);
    assert buf[..] == before[..at] + buf[at..at + (buf.Length - at)];
    assert before == before[..at] + before[at..];
  }

  /** Locating, the gates and the merge, in the report's own buffer. */
  method MergeReportInPlace(d: Descriptor, usable: bool, buf: array<byte>, dx: int, dy: int, wheel: int)
    requires |d.layouts| == MAX_REPORT_ID && (usable ==> WellFormed(d))
    modifies buf
    ensures buf[..] == MergedReport(d, usable, old(buf[..]), dx, dy, wheel)
  {
    hide Admits;
    hide MergeBody;
    hide FieldsFit;
    var at := PrefixLength(d);
    if buf.Length == 0 || !usable || buf.Length <= at { return; }
    var id := if d.usesReportIds then buf[0] else 0;
    match d.Find(id) {
      case None =>
      case Some(lay) =>
        ghost var before := buf[..];
        assert before[at..] == buf[at..] && before[..at] == buf[..at];
        assert LayoutForReport(d, usable, before) == Some(Located(lay, before[at..]));
        hide LayoutForReport;
        if Admits(lay, buf.Length - at) {
          MergeBehind(buf, at, lay, dx, dy, wheel);
        }
    }
  }

  /** Bit i of the body lies in a field that a merge may write. */
  predicate Writable(lay: Layout, i: int) {
    InField(i, lay.x) || InField(i, lay.y) || (lay.wheel.present && InField(i, lay.wheel))
  }

  /** A merge keeps the report's length and its id byte. What it changes lies in X, Y and the
      wheel of the layout whose id the report carries, and that layout has both axes: a report
      of any other id stays as it is. */
  lemma MergeStaysInItsReport(d: Descriptor, usable: bool, report: seq<byte>, dx: int, dy: int, wheel: int)
    requires WellFormed(d)
    ensures var after, n := MergedReport(d, usable, report, dx, dy, wheel), PrefixLength(d);
            && |after| == |report|
            && (d.usesReportIds && report != [] ==> after[0] == report[0])
            && (after != report ==>
                  && usable && |report| > n && IdOf(d, report) < 16
                  && var lay := d.layouts[IdOf(d, report)];
                     && lay.valid && lay.reportId == IdOf(d, report) && lay.HasXY() && lay.TotalBytes() <= |report| - n
                     && LayoutForReport(d, usable, after) == Some(Located(lay, after[n..]))
                     && forall i: nat :: i < 8 * (|report| - n) && !Writable(lay, i) ==>
                          Bit(after[n..], i) == Bit(report[n..], i))
  {
    hide Bit;
    hide MergeBody;
    hide InField;
    LocatedExactly(d, usable, report);
    var found := LayoutForReport(d, usable, report);
    if found.Some? && Admits(found.value.lay, |found.value.body|) {
      var lay, body := found.value.lay, found.value.body;
      AdmittedMergeExact(body, lay, dx, dy, wheel);
      var m := MergeBody(body, lay, dx, dy, wheel);
      if m.Written? {
        var after := report[..PrefixLength(d)] + m.body;
        assert after[PrefixLength(d)..] == m.body;
        LocatedExactly(d, usable, after);
      }
    }
    hide Admits;
  }

  /** The gates before a merge: X and Y each start on a byte and are one, two or four bytes
      wide, neither shares a byte with the buttons or the wheel, and the report is as long as
      its layout. On a layout of the parser's the second can be left out. */
  lemma AdmitsExactly(lay: Layout, bodyLen: nat)
    requires FieldsFit(lay, lay.totalBits)
    ensures Admits(lay, bodyLen) <==>
              && lay.x.present && lay.y.present
              && lay.x.bitOffset % 8 == 0 && lay.x.bitSize in {8, 16, 32}
              && lay.y.bitOffset % 8 == 0 && lay.y.bitSize in {8, 16, 32}
              && lay.totalBits <= 8 * bodyLen
  {
    if lay.HasXY() {
      OverlapGatesNeverFire(lay, lay.totalBits);
    }
  }

  // ------------------------------------------------------------ which report is built

  /** No valid layout before the r-th has both axes. */
  predicate NoAxesBefore(d: Descriptor, r: nat)
    requires r <= |d.layouts|
  {
    forall i :: 0 <= i < r && d.layouts[i].valid ==> !d.layouts[i].HasXY()
  }

  predicate NoButtonsBefore(d: Descriptor, r: nat)
    requires r <= |d.layouts|
  {
    forall i :: 0 <= i < r && d.layouts[i].valid ==> !d.layouts[i].HasButtons()
  }

  /** The r-th layout is the one to build: the first with both axes, or, where none has, the
      first with buttons. */
  predicate Chosen(d: Descriptor, r: nat)
    requires r < |d.layouts|
  {
    && d.layouts[r].valid
    && if d.layouts[r].HasXY() then NoAxesBefore(d, r)
       else d.layouts[r].HasButtons() && NoAxesBefore(d, |d.layouts|) && NoButtonsBefore(d, r)
  }

  lemma SelectedExactly(d: Descriptor)
    ensures SelectedLayout(d).Some? <==> exists r: nat :: r < |d.layouts| && Chosen(d, r)
    ensures forall r: nat :: r < |d.layouts| && Chosen(d, r) ==> SelectedLayout(d) == Some(d.layouts[r])
  {
    var xy, buttons := d.XyLayout(), d.ButtonLayout();
    if xy.Some? {
      FirstLayoutIsFirst(d.layouts, (l: Layout) => l.HasXY());
    } else if buttons.Some? {
      FirstLayoutIsFirst(d.layouts, (l: Layout) => l.HasButtons());
    }
    if SelectedLayout(d).Some? {
      var i :| 0 <= i < |d.layouts| && d.layouts[i] == SelectedLayout(d).value
               && if xy.Some? then NoAxesBefore(d, i) else NoButtonsBefore(d, i);
      assert Chosen(d, i);
    }
  }
}
