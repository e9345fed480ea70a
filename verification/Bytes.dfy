/** Bytes, powers of two and little-endian values: the arithmetic form of the
    shifts and masks that the proxy applies to report buffers. */
module Bytes {

  type byte = b: int | 0 <= b < 256

  type u16 = x: int | 0 <= x < 0x1_0000

  function Pow2(n: nat): (p: nat)
    ensures p >= 1
  {
    if n == 0 then 1 else 2 * Pow2(n - 1)
  }

  /** The value of a byte string, least significant byte first. */
  function LeValue(s: seq<byte>): nat {
    if |s| == 0 then 0 else s[0] + 256 * LeValue(s[1..])
  }

  /** The n low bytes of v, least significant byte first. */
  function LeBytes(v: nat, n: nat): (s: seq<byte>)
    ensures |s| == n
  {
    if n == 0 then [] else [v % 256] + LeBytes(v / 256, n - 1)
  }

  /** Reading n little-endian bytes back keeps the value modulo 256^n. */
  lemma {:induction false} LeBytesValue(v: nat, n: nat)
    ensures LeValue(LeBytes(v, n)) == v % Pow2(8 * n)
    ensures LeValue(LeBytes(v, n)) < Pow2(8 * n)
  {
    if n != 0 {
      LeBytesValue(v / 256, n - 1);
      assert LeBytes(v, n)[1..] == LeBytes(v / 256, n - 1);
      Pow2Byte(n);
      DivModStep(v, Pow2(8 * (n - 1)));
    }
  }

  lemma {:induction false} Pow2Add(a: nat, b: nat)
    ensures Pow2(a + b) == Pow2(a) * Pow2(b)
  {
    if a != 0 {
      Pow2Add(a - 1, b);
      assert Pow2(a + b) == 2 * Pow2(a - 1 + b);
    }
  }

  lemma Pow2Byte(n: nat)
    requires n >= 1
    ensures Pow2(8 * n) == 256 * Pow2(8 * (n - 1))
  {
    Pow2Add(8, 8 * (n - 1));
    assert Pow2(8) == 256 by {
      assert Pow2(4) == 16;
      Pow2Add(4, 4);
    }
  }

  lemma {:induction false} LeAppend(s: seq<byte>, b: byte)
    ensures LeValue(s + [b]) == LeValue(s) + b * Pow2(8 * |s|)
  {
    if s == [] {
      assert (s + [b])[1..] == [];
    } else {
      LeAppend(s[1..], b);
      assert (s + [b])[1..] == s[1..] + [b];
      Pow2Byte(|s|);
      MulAssoc(256, b, Pow2(8 * (|s| - 1)));
    }
  }

  lemma MulAssoc(a: int, b: int, c: int)
    ensures a * (b * c) == b * (a * c)
  {
  }

  lemma DivModStep(v: nat, p: nat)
    requires p >= 1
    ensures v % (256 * p) == v % 256 + 256 * (v / 256 % p)
  {
    var q := v / 256 / p;
    var m := v / 256 % p;
    assert v / 256 == p * q + m;
    assert v == 256 * (v / 256) + v % 256;
    assert v == (256 * p) * q + (v % 256 + 256 * m);
    assert 0 <= v % 256 + 256 * m < 256 * p;
    ModUnique(v, 256 * p, q, v % 256 + 256 * m);
  }

  lemma ModUnique(v: int, d: int, q: int, r: int)
    requires d > 0 && 0 <= r < d && v == d * q + r
    ensures v / d == q && v % d == r
  {
    var q' := v / d;
    var r' := v % d;
    assert d * q' + r' == d * q + r;
    if q' < q {
      assert d * (q - q') >= d by { assert q - q' >= 1; MulMono(1, q - q', d); }
    } else if q' > q {
      assert d * (q' - q) >= d by { assert q' - q >= 1; MulMono(1, q' - q, d); }
    }
  }

  lemma MulMono(a: int, b: int, c: int)
    requires a <= b && c >= 0
    ensures a * c <= b * c
  {
  }
}
