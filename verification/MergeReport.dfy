/** Adding a pending step to a physical report in place: the gates, the merge, and
    why a merge that passes the gates can neither fail nor touch another field. */
module MergeReport {
  import opened Bytes
  import opened HidBits
  import opened HidLayout
  import opened HidInvariant
  import opened HidCodec
  import opened HidFieldLaws
  import opened InjectClock
  import opened ReportRoundTrip
  import opened Wrappers

  /** The checks made before anything is taken from the accumulators. */
  predicate Admits(lay: Layout, bodyLen: nat) {
    lay.HasXY() && XyGates(lay) && lay.TotalBytes() <= bodyLen
  }

  predicate WheelWritable(lay: Layout) {
    && lay.wheel.present && IsSafe(lay.wheel)
    && !OverlapBytes(lay.wheel, lay.buttons) && !OverlapBytes(lay.wheel, lay.x) && !OverlapBytes(lay.wheel, lay.y)
  }

  /** How a merge ends once a step has been taken. */
  datatype Merged =
    | NoMotion                                          // dx = dy = 0: the report passes unchanged
    | Stuck                                             // a field read or write failed; the step is gone
    | Written(body: seq<byte>, wheelWritten: bool)

  /** The sum of two int32 values. C++ leaves a sum outside the range undefined; here it
      wraps around, as two's complement machines do. */
  function Sum32(a: int, b: int): (r: int)
    ensures InRange(r, 4) && (InRange(a + b, 4) ==> r == a + b)
  {
    (a + b + 0x8000_0000) % 0x1_0000_0000 - 0x8000_0000
  }

  function AddTo(body: seq<byte>, f: Field, delta: int): (r: Option<seq<byte>>)
    ensures r.Some? ==> |r.value| == |body|
  {
    var cur :- ReadSigned(body, f);
    WriteSigned(body, f, Sum32(cur, delta))
  }

  function MergeXY(body: seq<byte>, lay: Layout, dx: int, dy: int): Option<seq<byte>> {
    var curX :- ReadSigned(body, lay.x);
    var curY :- ReadSigned(body, lay.y);
    var withX :- WriteSigned(body, lay.x, Sum32(curX, dx));
    WriteSigned(withX, lay.y, Sum32(curY, dy))
  }

  function MergeBody(body: seq<byte>, lay: Layout, dx: int, dy: int, wheel: int): Merged {
    if dx == 0 && dy == 0 then NoMotion
    else
      match MergeXY(body, lay, dx, dy)
      case None => Stuck
      case Some(b) =>
        if wheel != 0 && WheelWritable(lay) && AddTo(b, lay.wheel, wheel).Some?
        then Written(AddTo(b, lay.wheel, wheel).value, true)
        else Written(b, false)
  }

  /** mouse_control_merge_report after take_step, on the report body buf[at..at + len]. */
  method MergeInPlace(buf: array<byte>, at: nat, len: nat, lay: Layout, dx: int, dy: int, wheel: int)
    returns (merged: bool, stuck: bool, wheelWritten: bool)
    requires at + len <= buf.Length && Admits(lay, len)
    modifies buf
    ensures buf[..at] == old(buf[..at]) && buf[at + len..] == old(buf[at + len..])
    ensures var m := MergeBody(old(buf[at..at + len]), lay, dx, dy, wheel);
            && merged == m.Written? && stuck == m.Stuck?
            && (m.NoMotion? ==> buf[at..at + len] == old(buf[at..at + len]))
            && (m.Written? ==> buf[at..at + len] == m.body && wheelWritten == m.wheelWritten)
  {
    hide ReadSigned;
    hide WriteSigned;
    hide OverlapBytes;
    wheelWritten := false;
    if dx == 0 && dy == 0 { return false, false, false; }
    var okX, curX := FieldReadSigned(buf, at, len, lay.x);
    var okY, curY := FieldReadSigned(buf, at, len, lay.y);
    if !okX || !okY { return false, true, false; }
    okX := FieldWriteSigned(buf, at, len, lay.x, Sum32(curX, dx));
    if !okX { return false, true, false; }
    okY := FieldWriteSigned(buf, at, len, lay.y, Sum32(curY, dy));
    if !okY { return false, true, false; }
    if wheel != 0 && WheelWritable(lay) {
      var okW, curW := FieldReadSigned(buf, at, len, lay.wheel);
      if okW {
        wheelWritten := FieldWriteSigned(buf, at, len, lay.wheel, Sum32(curW, wheel));
      }
    }
    return true, false, wheelWritten;
  }

  /** What one field gained, and what its width cut off. */
  function Gain(before: seq<byte>, after: seq<byte>, f: Field): int {
    if ReadSigned(before, f).Some? && ReadSigned(after, f).Some?
    then ReadSigned(after, f).value - ReadSigned(before, f).value
    else 0
  }

  /** A byte-aligned whole-byte field that is bit-disjoint from another shares no byte with it. */
  lemma DisjointSharesNoByte(a: Field, b: Field, bits: int)
    requires IsSafe(a) && Inside(a, bits) && Inside(b, bits) && Disjoint(a, b)
    ensures !OverlapBytes(a, b) && !OverlapBytes(b, a)
  {
    if b.present {
      assert a.bitOffset == 8 * (a.bitOffset / 8) && a.bitSize == 8 * (a.bitSize / 8);
    }
  }

  /** On a layout the parser produced, the overlap gates never fire: whenever X and Y
      are safe to read and write, the builder and the merge path may use them. */
  lemma OverlapGatesNeverFire(lay: Layout, bits: int)
    requires FieldsFit(lay, bits) && lay.HasXY()
    ensures XyGates(lay) <==> IsSafe(lay.x) && IsSafe(lay.y)
    ensures WheelWritable(lay) <==> lay.wheel.present && IsSafe(lay.wheel)
  {
    if IsSafe(lay.x) && IsSafe(lay.y) {
      DisjointSharesNoByte(lay.x, lay.buttons, bits);
      DisjointSharesNoByte(lay.y, lay.buttons, bits);
      DisjointSharesNoByte(lay.x, lay.wheel, bits);
      DisjointSharesNoByte(lay.y, lay.wheel, bits);
    }
    if lay.wheel.present && IsSafe(lay.wheel) {
      DisjointSharesNoByte(lay.wheel, lay.buttons, bits);
      DisjointSharesNoByte(lay.wheel, lay.x, bits);
      DisjointSharesNoByte(lay.wheel, lay.y, bits);
    }
  }

  lemma AdmittedHolds(lay: Layout, body: seq<byte>, f: Field)
    requires FieldsFit(lay, lay.totalBits) && Admits(lay, |body|) && f in {lay.x, lay.y, lay.wheel} && IsSafe(f)
    ensures Holds(body, f) && ReadSigned(body, f).Some?
    ensures forall v :: WriteSigned(body, f, v).Some?
  {
    ReadSignedIsItsBits(body, f);
    forall v
      ensures WriteSigned(body, f, v).Some?
    {
      WriteSignedReplacesBits(body, f, v);
    }
  }

  /** What an admitted merge does to the report, field by field and bit by bit. */
  ghost predicate MergedExactly(before: seq<byte>, after: seq<byte>, lay: Layout, dx: int, dy: int,
                                wheel: int, wheelWritten: bool) {
    && |after| == |before|
    && IsSafe(lay.x) && IsSafe(lay.y)
    && ReadSigned(before, lay.x).Some? && ReadSigned(before, lay.y).Some?
    && ReadSigned(after, lay.x) == Some(Clamp(Sum32(ReadSigned(before, lay.x).value, dx), lay.x.bitSize / 8))
    && ReadSigned(after, lay.y) == Some(Clamp(Sum32(ReadSigned(before, lay.y).value, dy), lay.y.bitSize / 8))
    && (wheelWritten ==>
          && IsSafe(lay.wheel) && ReadSigned(before, lay.wheel).Some?
          && ReadSigned(after, lay.wheel)
             == Some(Clamp(Sum32(ReadSigned(before, lay.wheel).value, wheel), lay.wheel.bitSize / 8)))
    && forall i: nat :: i < 8 * |before| && !InField(i, lay.x) && !InField(i, lay.y)
                        && !(wheelWritten && InField(i, lay.wheel)) ==>
         Bit(after, i) == Bit(before, i)
  }

  lemma MergeXyExact(body: seq<byte>, lay: Layout, dx: int, dy: int)
    requires FieldsFit(lay, lay.totalBits) && Admits(lay, |body|)
    ensures MergeXY(body, lay, dx, dy).Some?
    ensures MergedExactly(body, MergeXY(body, lay, dx, dy).value, lay, dx, dy, 0, false)
    ensures ReadSigned(MergeXY(body, lay, dx, dy).value, lay.wheel) == ReadSigned(body, lay.wheel) || !lay.wheel.present
  {
    hide ReadSigned;
    hide WriteSigned;
    hide OverlapBytes;
    hide Bit;
    hide Clamp;
    hide Sum32;
    AdmittedHolds(lay, body, lay.x);
    AdmittedHolds(lay, body, lay.y);
    var newX, newY := Sum32(ReadSigned(body, lay.x).value, dx), Sum32(ReadSigned(body, lay.y).value, dy);
    var bx := WriteSigned(body, lay.x, newX).value;
    AdmittedHolds(lay, bx, lay.y);
    var b := WriteSigned(bx, lay.y, newY).value;
    WriteSignedReplacesBits(body, lay.x, newX);
    WriteSignedReplacesBits(bx, lay.y, newY);
    OtherFieldKept(bx, b, lay.y, lay.x);
    if lay.wheel.present {
      OtherFieldKept(body, bx, lay.x, lay.wheel);
      OtherFieldKept(bx, b, lay.y, lay.wheel);
    }
  }

  /** Past the gates, on a parser-produced layout, the failing read and write branches
      are unreachable; X and Y hold the 32-bit sum with the step, saturated to their width;
      a writable wheel too; every other bit of the report stays. */
  lemma AdmittedMergeExact(body: seq<byte>, lay: Layout, dx: int, dy: int, wheel: int)
    requires FieldsFit(lay, lay.totalBits) && Admits(lay, |body|)
    ensures var m := MergeBody(body, lay, dx, dy, wheel);
            && !m.Stuck? && (m.NoMotion? <==> dx == 0 && dy == 0)
            && (m.Written? ==> MergedExactly(body, m.body, lay, dx, dy, wheel, m.wheelWritten))
            && (m.Written? ==> (m.wheelWritten <==> wheel != 0 && lay.wheel.present && IsSafe(lay.wheel)))
  {
    hide ReadSigned;
    hide WriteSigned;
    hide OverlapBytes;
    hide Bit;
    hide Clamp;
    hide Sum32;
    hide MergeXY;
    if dx != 0 || dy != 0 {
      MergeXyExact(body, lay, dx, dy);
      OverlapGatesNeverFire(lay, lay.totalBits);
      var b := MergeXY(body, lay, dx, dy).value;
      if wheel != 0 && WheelWritable(lay) {
        AdmittedHolds(lay, b, lay.wheel);
        var cur := ReadSigned(b, lay.wheel).value;
        WriteSignedReplacesBits(b, lay.wheel, Sum32(cur, wheel));
        var after := WriteSigned(b, lay.wheel, Sum32(cur, wheel)).value;
        OtherFieldKept(b, after, lay.wheel, lay.x);
        OtherFieldKept(b, after, lay.wheel, lay.y);
      }
    }
  }

  // ------------------------------------------------------------ saturation

  lemma SignExtendInRange(u: nat, n: nat)
    requires (n == 1 || n == 2 || n == 4) && u < Pow2(8 * n)
    ensures InRange(SignExtend(u, n), n)
  {
    Pow2Small();
    Pow2Wide();
  }

  lemma ReadInRange(body: seq<byte>, f: Field)
    requires ReadSigned(body, f).Some?
    ensures IsSafe(f) && InRange(ReadSigned(body, f).value, f.bitSize / 8)
  {
    hide SignExtend;
    hide InRange;
    hide LeValue;
    ReadSignedIsItsBits(body, f);
    SafeFits(body, f);
    SignExtendInRange(BitField(body, f.bitOffset, f.bitSize), f.bitSize / 8);
  }

  /** The field moved by delta and saturated exactly when the 32-bit sum did not overflow,
      and moved by all of delta exactly when the sum is within its width. */
  predicate Saturates(before: seq<byte>, after: seq<byte>, f: Field, delta: int) {
    && IsSafe(f) && ReadSigned(before, f).Some? && ReadSigned(after, f).Some?
    && var sum, n := ReadSigned(before, f).value + delta, f.bitSize / 8;
       && (ReadSigned(after, f).value == Clamp(sum, n) <==> InRange(sum, 4))
       && (ReadSigned(after, f).value == sum <==> InRange(sum, n))
  }

  lemma SumSaturates(cur: int, delta: int, n: nat)
    requires (n == 1 || n == 2 || n == 4) && InRange(cur, n) && InRange(delta, 4)
    ensures Clamp(Sum32(cur, delta), n) == Clamp(cur + delta, n) <==> InRange(cur + delta, 4)
    ensures Clamp(Sum32(cur, delta), n) == cur + delta <==> InRange(cur + delta, n)
  {
    var sum := cur + delta;
    if sum > 0x7fff_ffff {
      assert Sum32(cur, delta) == sum - 0x1_0000_0000;
    } else if sum < -0x8000_0000 {
      assert Sum32(cur, delta) == sum + 0x1_0000_0000;
    }
  }

  lemma FieldSaturates(before: seq<byte>, after: seq<byte>, f: Field, delta: int)
    requires InRange(delta, 4) && IsSafe(f) && ReadSigned(before, f).Some?
    requires ReadSigned(after, f) == Some(Clamp(Sum32(ReadSigned(before, f).value, delta), f.bitSize / 8))
    ensures Saturates(before, after, f, delta)
  {
    hide ReadSigned;
    hide Clamp;
    hide Sum32;
    ReadInRange(before, f);
    SumSaturates(ReadSigned(before, f).value, delta, f.bitSize / 8);
  }

  /** So X, Y and a written wheel gain the step, saturating, exactly as long as the sum
      stays within 32 bits, which only a 32-bit field can leave. */
  lemma MergeSaturates(body: seq<byte>, lay: Layout, dx: int, dy: int, wheel: int)
    requires FieldsFit(lay, lay.totalBits) && Admits(lay, |body|)
    requires InRange(dx, 4) && InRange(dy, 4) && InRange(wheel, 4)
    ensures var m := MergeBody(body, lay, dx, dy, wheel);
            m.Written? ==>
              && Saturates(body, m.body, lay.x, dx) && Saturates(body, m.body, lay.y, dy)
              && (m.wheelWritten ==> Saturates(body, m.body, lay.wheel, wheel))
  {
    hide MergeBody;
    hide ReadSigned;
    hide Clamp;
    hide Sum32;
    AdmittedMergeExact(body, lay, dx, dy, wheel);
    var m := MergeBody(body, lay, dx, dy, wheel);
    if m.Written? {
      FieldSaturates(body, m.body, lay.x, dx);
      FieldSaturates(body, m.body, lay.y, dy);
      if m.wheelWritten {
        FieldSaturates(body, m.body, lay.wheel, wheel);
      }
    }
  }

  /** A 32-bit X at its largest value, moved by one, ends at its smallest. */
  lemma WideFieldJumpsBack(body: seq<byte>, lay: Layout)
    requires FieldsFit(lay, lay.totalBits) && Admits(lay, |body|) && lay.x.bitSize == 32
    requires ReadSigned(body, lay.x) == Some(0x7fff_ffff)
    ensures var m := MergeBody(body, lay, 1, 0, 0);
            m.Written? && ReadSigned(m.body, lay.x) == Some(-0x8000_0000)
  {
    hide ReadSigned;
    hide MergeBody;
    AdmittedMergeExact(body, lay, 1, 0, 0);
  }

  // ------------------------------------------------------------ when the builder accepts

  /** The builder accepts a well-formed descriptor exactly when its selected report fits
      the buffer and every field it must write is writable. */
  lemma BuilderAcceptsExactly(d: Descriptor, buttons: byte, step: InjectStep, cap: nat)
    requires WellFormed(d)
    ensures BuildReport(d, buttons, step, cap).Some? <==>
              && d.parsed && SelectedLayout(d).Some?
              && var lay := SelectedLayout(d).value;
                 && lay.TotalBytes() + (if d.usesReportIds then 1 else 0) <= cap
                 && (lay.HasButtons() ==> IsMask(lay.buttons))
                 && (lay.HasXY() ==> IsSafe(lay.x) && IsSafe(lay.y))
                 && (lay.wheel.present ==> IsSafe(lay.wheel))
  {
    if d.parsed && SelectedLayout(d).Some? {
      SelectedIsFound(d);
      var lay := SelectedLayout(d).value;
      FillAcceptsExactly(Zeros(lay.TotalBytes()), lay, buttons, step);
    }
  }

  lemma FillAcceptsExactly(body: seq<byte>, lay: Layout, buttons: byte, step: InjectStep)
    requires FieldsFit(lay, lay.totalBits) && lay.totalBits <= 8 * |body|
    ensures FillBody(body, lay, buttons, step).Some? <==>
              && (lay.HasButtons() ==> IsMask(lay.buttons))
              && (lay.HasXY() ==> IsSafe(lay.x) && IsSafe(lay.y))
              && (lay.wheel.present ==> IsSafe(lay.wheel))
  {
    WriteMaskReplacesBits(body, lay.buttons, buttons);
    if lay.HasXY() {
      OverlapGatesNeverFire(lay, lay.totalBits);
    }
    var b1 := FillButtons(body, lay, buttons);
    if b1.Some? {
      WriteSignedReplacesBits(b1.value, lay.x, step.x.step);
      var bx := WriteSigned(b1.value, lay.x, step.x.step);
      if bx.Some? {
        WriteSignedReplacesBits(bx.value, lay.y, step.y.step);
      }
      var b2 := FillXY(b1.value, lay, step.x.step, step.y.step);
      if b2.Some? {
        WriteSignedReplacesBits(b2.value, lay.wheel, step.wheel.step);
      }
    }
  }
}
