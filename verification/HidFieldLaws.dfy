/** The byte-wise field readers and writers against the bit-string view of a report:
    a read is the value of the field's bits, a write replaces those bits and no other. */
module HidFieldLaws {
  import opened Bytes
  import opened HidBits
  import opened HidLayout
  import opened HidCodec
  import opened Wrappers

  /** The body is long enough to hold the field. */
  predicate Holds(body: seq<byte>, f: Field) {
    f.bitOffset + f.bitSize <= 8 * |body|
  }

  lemma SafeFits(body: seq<byte>, f: Field)
    requires IsSafe(f)
    ensures f.bitOffset == 8 * (f.bitOffset / 8) && f.bitSize == 8 * (f.bitSize / 8)
    ensures Holds(body, f) <==> f.bitOffset / 8 + f.bitSize / 8 <= |body|
  {
  }

  lemma MaskFits(body: seq<byte>, f: Field)
    requires IsMask(f)
    ensures var n := (f.bitSize + 7) / 8;
            f.bitOffset == 8 * (f.bitOffset / 8) && 1 <= n <= 2 && f.bitSize <= 8 * n < f.bitSize + 8
    ensures Holds(body, f) <==> f.bitOffset / 8 + (f.bitSize + 7) / 8 <= |body|
  {
  }

  /** A signed read succeeds exactly on a safe field inside the body, and is the
      two's complement value of the field's bits. */
  lemma ReadSignedIsItsBits(body: seq<byte>, f: Field)
    ensures ReadSigned(body, f).Some? <==> IsSafe(f) && Holds(body, f)
    ensures ReadSigned(body, f).Some? ==>
              ReadSigned(body, f).value == SignExtend(BitField(body, f.bitOffset, f.bitSize), f.bitSize / 8)
  {
    hide BitField;
    hide LeValue;
    hide SignExtend;
    if IsSafe(f) {
      SafeFits(body, f);
      if Holds(body, f) {
        AlignedBits(body, f.bitOffset / 8, f.bitSize / 8);
      }
    }
  }

  lemma MaskReadBits(body: seq<byte>, o: nat, n: nat, size: nat)
    requires o + n <= |body| && size <= 8 * n
    ensures LeValue(body[o..o + n]) % Pow2(size) == BitField(body, 8 * o, size)
  {
    AlignedBits(body, o, n);
    BitFieldMod(body, 8 * o, size, 8 * n);
  }

  lemma ReadMaskIsItsBits(body: seq<byte>, f: Field)
    ensures ReadMask(body, f).Some? <==> IsMask(f) && Holds(body, f)
    ensures ReadMask(body, f).Some? ==> ReadMask(body, f).value == BitField(body, f.bitOffset, f.bitSize)
  {
    if IsMask(f) {
      MaskFits(body, f);
      if Holds(body, f) {
        MaskReadBits(body, f.bitOffset / 8, (f.bitSize + 7) / 8, f.bitSize);
      }
    }
  }

  /** The stored code of a clamped value reads back as that value. */
  lemma SignedCode(v: int, n: nat)
    requires n == 1 || n == 2 || n == 4
    requires InRange(v, n)
    ensures SignExtend(ToUint32(v) % Pow2(8 * n), n) == v
  {
    var p, raw := Pow2(8 * n), ToUint32(v);
    assert (p == 256 && n == 1) || (p == 65536 && n == 2) || (p == 0x1_0000_0000 && n == 4) by {
      Pow2Small();
      Pow2Wide();
    }
    assert p == 2 * Pow2(8 * n - 1);
    ModUnique(raw, p, if v < 0 then 0x1_0000_0000 / p - 1 else 0, if v < 0 then v + p else v);
  }

  lemma SpliceBits(body: seq<byte>, o: nat, mid: seq<byte>)
    requires o + |mid| <= |body|
    ensures SameOutside(body, Splice(body, o, mid), 8 * o, 8 * |mid|)
    ensures BitField(Splice(body, o, mid), 8 * o, 8 * |mid|) == LeValue(mid)
  {
    SpliceSameOutside(body, o, mid);
    AlignedBits(Splice(body, o, mid), o, |mid|);
    assert Splice(body, o, mid)[o..o + |mid|] == mid;
  }

  lemma WriteSignedReplacesBits(body: seq<byte>, f: Field, v: int)
    ensures WriteSigned(body, f, v).Some? <==> IsSafe(f) && Holds(body, f)
    ensures WriteSigned(body, f, v).Some? ==>
              var after := WriteSigned(body, f, v).value;
              && SameOutside(body, after, f.bitOffset, f.bitSize)
              && ReadSigned(after, f) == Some(Clamp(v, f.bitSize / 8))
  {
    hide Bit;
    hide BitField;
    hide LeValue;
    hide LeBytes;
    if IsSafe(f) {
      SafeFits(body, f);
      if Holds(body, f) {
        var o, n := f.bitOffset / 8, f.bitSize / 8;
        var raw := ToUint32(Clamp(v, n));
        LeBytesValue(raw, n);
        SpliceBits(body, o, LeBytes(raw, n));
        SignedCode(Clamp(v, n), n);
        ReadSignedIsItsBits(Splice(body, o, LeBytes(raw, n)), f);
      }
    }
  }

  lemma MaskByteParts(prev: byte, mask: nat, size: nat, k: nat)
    requires 8 * k < size
    ensures var m := Pow2(if size - 8 * k >= 8 then 8 else size - 8 * k);
            MaskByte(prev, mask, size, k) / m == prev / m && MaskByte(prev, mask, size, k) % m == mask / Pow2(8 * k) % m
  {
    var m := Pow2(if size - 8 * k >= 8 then 8 else size - 8 * k);
    ModUnique(MaskByte(prev, mask, size, k), m, prev / m, mask / Pow2(8 * k) % m);
  }

  lemma OneMaskByte(prev: seq<byte>, mask: nat, size: nat)
    requires |prev| == 1 && 0 < size <= 8
    ensures LeValue(MaskBytes(prev, mask, size, 1)) % Pow2(size) == mask % Pow2(size)
  {
    hide MaskByte;
    Pow2Small();
    MaskByteParts(prev[0], mask, size, 0);
    var b0 := MaskByte(prev[0], mask, size, 0);
    assert MaskBytes(prev, mask, size, 1) == [b0];
    assert LeValue([b0]) == b0;
  }

  lemma TwoMaskBytes(prev: seq<byte>, mask: nat, size: nat)
    requires |prev| == 2 && 8 < size <= 16
    ensures LeValue(MaskBytes(prev, mask, size, 2)) % Pow2(size) == mask % Pow2(size)
  {
    var b0, b1 := MaskByte(prev[0], mask, size, 0), MaskByte(prev[1], mask, size, 1);
    var v: int, m := b0 as int + 256 * (b1 as int), Pow2(size - 8);
    assert LeValue(MaskBytes(prev, mask, size, 2)) == v by {
      hide MaskByte;
      assert MaskBytes(prev, mask, size, 1) == [b0];
      assert MaskBytes(prev, mask, size, 2) == [b0, b1];
      assert [b0, b1][1..] == [b1] && LeValue([b1]) == b1;
    }
    assert Pow2(size) == 256 * m && Pow2(0) == 1 && Pow2(8) == 256 by {
      Pow2Small();
      Pow2Add(8, size - 8);
    }
    MaskByteParts(prev[0], mask, size, 0);
    MaskByteParts(prev[1], mask, size, 1);
    TwoDigits(v, b0, b1, mask, m);
  }

  lemma TwoDigits(v: nat, b0: byte, b1: byte, mask: nat, m: nat)
    requires m > 0 && v == b0 as int + 256 * (b1 as int)
    requires b0 % 256 == mask % 256 && b1 % m == mask / 256 % m
    ensures v % (256 * m) == mask % (256 * m)
  {
    DivModStep(mask, m);
    DivModStep(v, m);
  }

  /** The bits of the last mask byte that the mask does not cover stay put. */
  lemma MaskKeepsHighBits(body: seq<byte>, f: Field, mask: nat, i: nat)
    requires IsMask(f) && Holds(body, f) && WriteMask(body, f, mask).Some?
    requires f.bitOffset + f.bitSize <= i < 8 * (f.bitOffset / 8 + (f.bitSize + 7) / 8) <= 8 * |body|
    ensures Bit(body, i) == Bit(WriteMask(body, f, mask).value, i)
  {
    var o, n := f.bitOffset / 8, (f.bitSize + 7) / 8;
    var k, left := n - 1, f.bitSize - 8 * (n - 1);
    assert i / 8 == o + k && i % 8 == i - 8 * (o + k) && i % 8 >= left;
    MaskBytesAt(body[o..o + n], mask, f.bitSize, n, k);
    MaskByteParts(body[o + k], mask, f.bitSize, k);
    HighBitsAgree(body[o + k], MaskByte(body[o + k], mask, f.bitSize, k), left, i % 8);
  }

  lemma WriteMaskReplacesBits(body: seq<byte>, f: Field, mask: nat)
    ensures WriteMask(body, f, mask).Some? <==> IsMask(f) && Holds(body, f)
    ensures WriteMask(body, f, mask).Some? ==>
              var after := WriteMask(body, f, mask).value;
              && SameOutside(body, after, f.bitOffset, f.bitSize)
              && ReadMask(after, f) == Some(mask % Pow2(f.bitSize))
  {
    hide Bit;
    hide BitField;
    hide LeValue;
    hide MaskBytes;
    if IsMask(f) {
      MaskFits(body, f);
      if Holds(body, f) {
        var o, n := f.bitOffset / 8, (f.bitSize + 7) / 8;
        var bytes := MaskBytes(body[o..o + n], mask, f.bitSize, n);
        var after := WriteMask(body, f, mask).value;
        SpliceBits(body, o, bytes);
        if n == 1 { OneMaskByte(body[o..o + n], mask, f.bitSize); } else { TwoMaskBytes(body[o..o + n], mask, f.bitSize); }
        ReadMaskIsItsBits(after, f);
        BitFieldMod(after, f.bitOffset, f.bitSize, 8 * n);
        forall i: nat | i < 8 * |body| && !(f.bitOffset <= i < f.bitOffset + f.bitSize)
          ensures Bit(body, i) == Bit(after, i)
        {
          if 8 * o <= i < 8 * o + 8 * n {
            MaskKeepsHighBits(body, f, mask, i);
          }
        }
      }
    }
  }

  /** A write to one field leaves every bit-disjoint field's value alone. */
  lemma OtherFieldKept(a: seq<byte>, b: seq<byte>, f: Field, g: Field)
    requires f.bitOffset >= 0 && f.bitSize >= 0 && g.bitOffset >= 0 && g.bitSize >= 0
    requires SameOutside(a, b, f.bitOffset, f.bitSize)
    requires f.bitOffset + f.bitSize <= g.bitOffset || g.bitOffset + g.bitSize <= f.bitOffset
    ensures ReadSigned(a, g) == ReadSigned(b, g) && ReadMask(a, g) == ReadMask(b, g)
  {
    ReadSignedIsItsBits(a, g);
    ReadSignedIsItsBits(b, g);
    ReadMaskIsItsBits(a, g);
    ReadMaskIsItsBits(b, g);
    if Holds(a, g) {
      BitFieldFrame(a, b, g.bitOffset, g.bitSize, f.bitOffset, f.bitSize);
    }
  }
}
