/** Report bodies as bit strings (Device Class Definition for HID 1.11, section 8):
    bit i of a report is bit i % 8 of byte i / 8, fields are little-endian. */
module HidBits {
  import opened Bytes

  /** Bit j of a number: shift right j times, keep the lowest bit. */
  function NatBit(v: nat, j: nat): (b: nat)
    ensures b <= 1
  {
    if j == 0 then v % 2 else NatBit(v / 2, j - 1)
  }

  function Bit(body: seq<byte>, i: nat): (b: nat)
    requires i < 8 * |body|
    ensures b <= 1
  {
    NatBit(body[i / 8], i % 8)
  }

  /** The unsigned value of the `size` bits that start at bit `off`. */
  function BitField(body: seq<byte>, off: nat, size: nat): (v: nat)
    requires off + size <= 8 * |body|
    ensures v < Pow2(size)
    decreases size
  {
    if size == 0 then 0 else Bit(body, off) + 2 * BitField(body, off + 1, size - 1)
  }

  /** b differs from a at most in the bits [off, off + size). */
  ghost predicate SameOutside(a: seq<byte>, b: seq<byte>, off: nat, size: nat) {
    |a| == |b| && forall i: nat :: i < 8 * |a| && !(off <= i < off + size) ==> Bit(a, i) == Bit(b, i)
  }

  lemma {:induction false} BitFieldAgrees(a: seq<byte>, b: seq<byte>, off: nat, size: nat)
    requires |a| == |b| && off + size <= 8 * |a|
    requires forall i: nat :: off <= i < off + size ==> Bit(a, i) == Bit(b, i)
    ensures BitField(a, off, size) == BitField(b, off, size)
    decreases size
  {
    if size > 0 {
      BitFieldAgrees(a, b, off + 1, size - 1);
    }
  }

  /** A write elsewhere leaves a field's value alone. */
  lemma BitFieldFrame(a: seq<byte>, b: seq<byte>, off: nat, size: nat, wOff: nat, wSize: nat)
    requires off + size <= 8 * |a| && SameOutside(a, b, wOff, wSize)
    requires off + size <= wOff || wOff + wSize <= off
    ensures BitField(a, off, size) == BitField(b, off, size)
  {
    BitFieldAgrees(a, b, off, size);
  }

  lemma {:induction false} BitFieldMod(body: seq<byte>, off: nat, size: nat, wider: nat)
    requires size <= wider && off + wider <= 8 * |body|
    ensures BitField(body, off, size) == BitField(body, off, wider) % Pow2(size)
    decreases size
  {
    if size > 0 {
      hide Bit;
      BitFieldMod(body, off + 1, size - 1, wider - 1);
      var bit, rest, p := Bit(body, off), BitField(body, off + 1, wider - 1), Pow2(size - 1);
      assert BitField(body, off, size) == bit + 2 * (rest % p);
      assert BitField(body, off, wider) == bit + 2 * rest && Pow2(size) == 2 * p;
      hide BitField;
      hide Pow2;
      EvenMod(bit, rest, p);
    }
  }

  lemma EvenMod(bit: nat, rest: nat, p: nat)
    requires bit <= 1 && p >= 1
    ensures (bit + 2 * rest) % (2 * p) == bit + 2 * (rest % p)
  {
    assert rest == p * (rest / p) + rest % p;
    ModUnique(bit + 2 * rest, 2 * p, rest / p, bit + 2 * (rest % p));
  }

  lemma NibbleBits(v: nat)
    ensures NatBit(v, 0) + 2 * NatBit(v, 1) + 4 * NatBit(v, 2) + 8 * NatBit(v, 3) == v % 16
  {
    var a, b, c := v / 2, v / 4, v / 8;
    assert a / 2 == b && b / 2 == c;
    assert NatBit(v, 1) == NatBit(a, 0) == a % 2;
    assert NatBit(v, 2) == NatBit(a, 1) == NatBit(b, 0) == b % 2;
    assert NatBit(v, 3) == NatBit(a, 2) == NatBit(b, 1) == NatBit(c, 0) == c % 2;
    assert v == 2 * a + v % 2 && a == 2 * b + a % 2 && b == 2 * c + b % 2 && c == 2 * (c / 2) + c % 2;
    ModUnique(v, 16, c / 2, v % 2 + 2 * (a % 2) + 4 * (b % 2) + 8 * (c % 2));
  }

  lemma NatBitShift4(v: nat, j: nat)
    ensures NatBit(v, j + 4) == NatBit(v / 16, j)
  {
    assert NatBit(v, j + 4) == NatBit(v / 2, j + 3) == NatBit(v / 2 / 2, j + 2);
    assert NatBit(v / 2 / 2, j + 2) == NatBit(v / 2 / 2 / 2, j + 1) == NatBit(v / 2 / 2 / 2 / 2, j);
    assert v / 2 / 2 / 2 / 2 == v / 16;
  }

  lemma Pow2Small()
    ensures Pow2(0) == 1 && Pow2(1) == 2 && Pow2(2) == 4 && Pow2(3) == 8 && Pow2(4) == 16
    ensures Pow2(5) == 32 && Pow2(6) == 64 && Pow2(7) == 128 && Pow2(8) == 256
  {
    assert Pow2(2) == 2 * Pow2(1);
    assert Pow2(4) == 2 * Pow2(3) && Pow2(3) == 2 * Pow2(2);
    assert Pow2(6) == 2 * Pow2(5) && Pow2(5) == 2 * Pow2(4);
    assert Pow2(8) == 2 * Pow2(7) && Pow2(7) == 2 * Pow2(6);
  }

  lemma Pow2Wide()
    ensures Pow2(15) == 32768 && Pow2(16) == 65536 && Pow2(31) == 0x8000_0000 && Pow2(32) == 0x1_0000_0000
  {
    Pow2Small();
    Pow2Add(8, 7);
    Pow2Add(8, 8);
    Pow2Add(16, 15);
    Pow2Add(16, 16);
  }

  lemma HighNibbleBits(v: nat)
    ensures NatBit(v, 4) + 2 * NatBit(v, 5) + 4 * NatBit(v, 6) + 8 * NatBit(v, 7) == v / 16 % 16
  {
    NatBitShift4(v, 0);
    NatBitShift4(v, 1);
    NatBitShift4(v, 2);
    NatBitShift4(v, 3);
    NibbleBits(v / 16);
  }

  function Nibble(body: seq<byte>, off: nat): nat
    requires off + 4 <= 8 * |body|
  {
    Bit(body, off) + 2 * Bit(body, off + 1) + 4 * Bit(body, off + 2) + 8 * Bit(body, off + 3)
  }

  lemma FourBits(body: seq<byte>, off: nat, size: nat)
    requires off + 4 + size <= 8 * |body|
    ensures BitField(body, off, 4 + size) == Nibble(body, off) + 16 * BitField(body, off + 4, size)
  {
    assert BitField(body, off + 3, 1 + size) == Bit(body, off + 3) + 2 * BitField(body, off + 4, size);
    assert BitField(body, off + 2, 2 + size) == Bit(body, off + 2) + 2 * BitField(body, off + 3, 1 + size);
    assert BitField(body, off + 1, 3 + size) == Bit(body, off + 1) + 2 * BitField(body, off + 2, 2 + size);
  }

  lemma BitAt(body: seq<byte>, o: nat, j: nat)
    requires o < |body| && j < 8
    ensures Bit(body, 8 * o + j) == NatBit(body[o], j)
  {
    assert (8 * o + j) / 8 == o && (8 * o + j) % 8 == j;
  }

  lemma LowNibble(body: seq<byte>, o: nat)
    requires o < |body|
    ensures Nibble(body, 8 * o) == body[o] % 16
  {
    hide NatBit;
    BitAt(body, o, 0);
    BitAt(body, o, 1);
    BitAt(body, o, 2);
    BitAt(body, o, 3);
    NibbleBits(body[o]);
  }

  lemma HighNibble(body: seq<byte>, o: nat)
    requires o < |body|
    ensures Nibble(body, 8 * o + 4) == body[o] / 16
  {
    hide NatBit;
    BitAt(body, o, 4);
    BitAt(body, o, 5);
    BitAt(body, o, 6);
    BitAt(body, o, 7);
    HighNibbleBits(body[o]);
  }

  /** Eight bits of a byte-aligned field are its first byte. */
  lemma ByteStep(body: seq<byte>, o: nat, size: nat)
    requires 8 * o + 8 + size <= 8 * |body|
    ensures BitField(body, 8 * o, 8 + size) == body[o] + 256 * BitField(body, 8 * (o + 1), size)
  {
    hide Nibble;
    hide BitField;
    FourBits(body, 8 * o, 4 + size);
    FourBits(body, 8 * o + 4, size);
    LowNibble(body, o);
    HighNibble(body, o);
  }

  /** Byte-wise little-endian reading of an aligned run is the bit-wise value. */
  lemma {:induction false} AlignedBits(body: seq<byte>, o: nat, n: nat)
    requires o + n <= |body|
    ensures BitField(body, 8 * o, 8 * n) == LeValue(body[o..o + n])
    decreases n
  {
    if n > 0 {
      hide Bit;
      ByteStep(body, o, 8 * (n - 1));
      AlignedBits(body, o + 1, n - 1);
      assert body[o..o + n][1..] == body[o + 1..o + 1 + (n - 1)];
    }
  }

  /** Replacing whole bytes changes no bit outside them. */
  lemma SpliceSameOutside(body: seq<byte>, o: nat, mid: seq<byte>)
    requires o + |mid| <= |body|
    ensures SameOutside(body, body[..o] + mid + body[o + |mid|..], 8 * o, 8 * |mid|)
  {
  }

  /** Two numbers that agree above bit n agree on every bit from n up. */
  lemma {:induction false} HighBitsAgree(x: nat, y: nat, n: nat, j: nat)
    requires x / Pow2(n) == y / Pow2(n) && n <= j
    ensures NatBit(x, j) == NatBit(y, j)
    decreases j
  {
    if n > 0 {
      HalfQuotient(x, Pow2(n - 1));
      HalfQuotient(y, Pow2(n - 1));
      HighBitsAgree(x / 2, y / 2, n - 1, j - 1);
    }
  }

  lemma HalfQuotient(x: nat, p: nat)
    requires p >= 1
    ensures x / (2 * p) == x / 2 / p
  {
    var q, r := x / 2 / p, x / 2 % p;
    assert x / 2 == p * q + r;
    assert x == (2 * p) * q + (2 * r + x % 2) by { assert 2 * (p * q) == (2 * p) * q; }
    ModUnique(x, 2 * p, q, 2 * r + x % 2);
  }
}
