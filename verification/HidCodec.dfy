/** Reading and writing one field of a report body, byte by byte, and the proof
    that each write replaces exactly the field's bits. */
module HidCodec {
  import opened Bytes
  import opened HidBits
  import opened HidLayout
  import opened Wrappers

  predicate IsSafe(f: Field) {
    f.present && f.bitOffset >= 0 && f.bitOffset % 8 == 0 && (f.bitSize == 8 || f.bitSize == 16 || f.bitSize == 32)
  }

  predicate IsMask(f: Field) {
    f.present && f.bitOffset >= 0 && f.bitOffset % 8 == 0 && 0 < f.bitSize <= 16
  }

  /** Saturation to the range of an n-byte two's complement number. */
  function Clamp(v: int, n: nat): (r: int)
    requires n == 1 || n == 2 || n == 4
    ensures InRange(v, n) ==> r == v
    ensures InRange(r, n)
  {
    var hi := if n == 1 then 127 else if n == 2 then 32767 else 0x7fff_ffff;
    if v < -hi - 1 then -hi - 1 else if v > hi then hi else v
  }

  predicate InRange(v: int, n: nat)
    requires n == 1 || n == 2 || n == 4
  {
    if n == 1 then -128 <= v <= 127
    else if n == 2 then -32768 <= v <= 32767
    else -0x8000_0000 <= v <= 0x7fff_ffff
  }

  /** static_cast<uint32_t> of a 32-bit value. */
  function ToUint32(v: int): nat
    requires InRange(v, 4)
  {
    if v < 0 then v + 0x1_0000_0000 else v
  }

  function Splice(body: seq<byte>, o: nat, mid: seq<byte>): (r: seq<byte>)
    requires o + |mid| <= |body|
    ensures |r| == |body|
  {
    body[..o] + mid + body[o + |mid|..]
  }

  function ReadSigned(body: seq<byte>, f: Field): Option<int> {
    if !IsSafe(f) || f.bitOffset / 8 + f.bitSize / 8 > |body| then None
    else
      var o, n := f.bitOffset / 8, f.bitSize / 8;
      Some(SignExtend(LeValue(body[o..o + n]), n))
  }

  function WriteSigned(body: seq<byte>, f: Field, value: int): (r: Option<seq<byte>>)
    ensures r.Some? ==> |r.value| == |body|
  {
    if !IsSafe(f) || f.bitOffset / 8 + f.bitSize / 8 > |body| then None
    else
      var o, n := f.bitOffset / 8, f.bitSize / 8;
      Some(Splice(body, o, LeBytes(ToUint32(Clamp(value, n)), n)))
  }

  function ReadMask(body: seq<byte>, f: Field): Option<nat> {
    if !IsMask(f) || f.bitOffset / 8 + (f.bitSize + 7) / 8 > |body| then None
    else
      var o, n := f.bitOffset / 8, (f.bitSize + 7) / 8;
      Some(LeValue(body[o..o + n]) % Pow2(f.bitSize))
  }

  /** Byte k of a mask of `size` bits stored over `prev`: the uncovered high bits stay. */
  function MaskByte(prev: byte, mask: nat, size: nat, k: nat): byte
    requires 8 * k < size
  {
    var m := Pow2(if size - 8 * k >= 8 then 8 else size - 8 * k);
    MaskByteRange(prev, mask / Pow2(8 * k), size - 8 * k);
    prev / m * m + mask / Pow2(8 * k) % m
  }

  lemma MaskByteRange(prev: byte, want: nat, left: nat)
    requires 0 < left
    ensures var m := Pow2(if left >= 8 then 8 else left); 0 <= prev / m * m + want % m < 256
  {
    Pow2Small();
    var n := if left >= 8 then 8 else left;
    Pow2Add(n, 8 - n);
    var m, c := Pow2(n), Pow2(8 - n);
    assert m * c == 256;
    QuotientBound(prev, m, c);
    MulMono(prev / m + 1, c, m);
    assert (prev / m + 1) * m == prev / m * m + m && c * m == m * c;
    MulMono(0, prev / m, m);
  }

  lemma QuotientBound(x: nat, m: nat, c: nat)
    requires m > 0 && x < m * c
    ensures x / m < c
  {
    assert m * (x / m) <= x;
    if x / m >= c {
      MulMono(c, x / m, m);
      assert false;
    }
  }

  function MaskBytes(prev: seq<byte>, mask: nat, size: nat, n: nat): (r: seq<byte>)
    requires n <= |prev| && 8 * n < size + 8
    ensures |r| == n
  {
    if n == 0 then [] else MaskBytes(prev, mask, size, n - 1) + [MaskByte(prev[n - 1], mask, size, n - 1)]
  }

  lemma {:induction false} MaskBytesAt(prev: seq<byte>, mask: nat, size: nat, n: nat, k: nat)
    requires n <= |prev| && 8 * n < size + 8 && k < n
    ensures MaskBytes(prev, mask, size, n)[k] == MaskByte(prev[k], mask, size, k)
  {
    if k < n - 1 {
      MaskBytesAt(prev, mask, size, n - 1, k);
    }
  }

  function WriteMask(body: seq<byte>, f: Field, mask: nat): (r: Option<seq<byte>>)
    ensures r.Some? ==> |r.value| == |body|
  {
    if !IsMask(f) || f.bitOffset / 8 + (f.bitSize + 7) / 8 > |body| then None
    else
      var o, n := f.bitOffset / 8, (f.bitSize + 7) / 8;
      Some(Splice(body, o, MaskBytes(body[o..o + n], mask, f.bitSize, n)))
  }

  // ---------------------------------------------------------------- in place, as the proxy does it

  /** hid_field_read_signed on the body buf[at..at + len]. */
  method FieldReadSigned(buf: array<byte>, at: nat, len: nat, f: Field) returns (ok: bool, out: int)
    requires at + len <= buf.Length
    ensures ok == ReadSigned(buf[at..at + len], f).Some?
    ensures ok ==> out == ReadSigned(buf[at..at + len], f).value
  {
    if !IsSafe(f) { return false, 0; }
    var o, n := f.bitOffset / 8, f.bitSize / 8;
    if o + n > len { return false, 0; }
    var raw := ReadData(buf, at + o, n);
    assert buf[at..at + len][o..o + n] == buf[at + o..at + o + n];
    return true, SignExtend(raw, n);
  }

  /** Splicing inside a window of the buffer is splicing the window. */
  lemma SpliceWindow(buf: seq<byte>, at: nat, len: nat, o: nat, mid: seq<byte>)
    requires at + len <= |buf| && o + |mid| <= len
    ensures var after := Splice(buf, at + o, mid);
            after[..at] == buf[..at] && after[at + len..] == buf[at + len..]
            && after[at..at + len] == Splice(buf[at..at + len], o, mid)
  {
    var after, window := Splice(buf, at + o, mid), buf[at..at + len];
    assert after[at..at + o] == window[..o];
    assert after[at + o..at + o + |mid|] == mid;
    assert after[at + o + |mid|..at + len] == window[o + |mid|..];
    assert after[at..at + len] == after[at..at + o] + after[at + o..at + o + |mid|] + after[at + o + |mid|..at + len];
  }

  /** The byte loop of hid_field_write_signed. */
  method StoreLe(buf: array<byte>, start: nat, raw: nat, n: nat)
    requires start + n <= buf.Length
    modifies buf
    ensures buf[..] == Splice(old(buf[..]), start, LeBytes(raw, n))
  {
    ghost var was, bytes := buf[..], LeBytes(raw, n);
    var rest := raw;
    for k := 0 to n
      invariant forall j :: 0 <= j < buf.Length && !(start <= j < start + k) ==> buf[j] == was[j]
      invariant forall j :: 0 <= j < k ==> buf[start + j] == bytes[j]
      invariant bytes[k..] == LeBytes(rest, n - k)
    {
      buf[start + k] := rest % 256;
      assert bytes[k] == bytes[k..][0];
      assert bytes[k + 1..] == bytes[k..][1..];
      rest := rest / 256;
    }
  }

  /** hid_field_write_signed. */
  method FieldWriteSigned(buf: array<byte>, at: nat, len: nat, f: Field, value: int) returns (ok: bool)
    requires at + len <= buf.Length
    modifies buf
    ensures ok == WriteSigned(old(buf[at..at + len]), f, value).Some?
    ensures buf[..at] == old(buf[..at]) && buf[at + len..] == old(buf[at + len..])
    ensures buf[at..at + len] == if ok then WriteSigned(old(buf[at..at + len]), f, value).value else old(buf[at..at + len])
  {
    hide Splice;
    hide LeBytes;
    if !IsSafe(f) { return false; }
    var o, n := f.bitOffset / 8, f.bitSize / 8;
    if o + n > len { return false; }
    var raw := ToUint32(Clamp(value, n));
    SpliceWindow(buf[..], at, len, o, LeBytes(raw, n));
    StoreLe(buf, at + o, raw, n);
    return true;
  }

  /** hid_field_read_mask. */
  method FieldReadMask(buf: array<byte>, at: nat, len: nat, f: Field) returns (ok: bool, out: nat)
    requires at + len <= buf.Length
    ensures ok == ReadMask(buf[at..at + len], f).Some?
    ensures ok ==> out == ReadMask(buf[at..at + len], f).value
  {
    if !IsMask(f) { return false, 0; }
    var o, n := f.bitOffset / 8, (f.bitSize + 7) / 8;
    if o + n > len { return false, 0; }
    var raw := ReadData(buf, at + o, n);
    assert buf[at..at + len][o..o + n] == buf[at + o..at + o + n];
    return true, raw % Pow2(f.bitSize);
  }

  /** The byte loop of hid_field_write_mask. */
  method StoreMask(buf: array<byte>, start: nat, mask: nat, size: nat, n: nat)
    requires start + n <= buf.Length && 8 * n < size + 8
    modifies buf
    ensures buf[..] == Splice(old(buf[..]), start, MaskBytes(old(buf[start..start + n]), mask, size, n))
  {
    ghost var was, covered := buf[..], buf[start..start + n];
    ghost var bytes := MaskBytes(covered, mask, size, n);
    for k := 0 to n
      invariant forall j :: 0 <= j < buf.Length && !(start <= j < start + k) ==> buf[j] == was[j]
      invariant forall j :: 0 <= j < k ==> buf[start + j] == bytes[j]
    {
      MaskBytesAt(covered, mask, size, n, k);
      hide MaskByte;
      buf[start + k] := MaskByte(buf[start + k], mask, size, k);
    }
  }

  /** hid_field_write_mask. */
  method FieldWriteMask(buf: array<byte>, at: nat, len: nat, f: Field, mask: nat) returns (ok: bool)
    requires at + len <= buf.Length
    modifies buf
    ensures ok == WriteMask(old(buf[at..at + len]), f, mask).Some?
    ensures buf[..at] == old(buf[..at]) && buf[at + len..] == old(buf[at + len..])
    ensures buf[at..at + len] == if ok then WriteMask(old(buf[at..at + len]), f, mask).value else old(buf[at..at + len])
  {
    hide Splice;
    hide MaskBytes;
    if !IsMask(f) { return false; }
    var o, n := f.bitOffset / 8, (f.bitSize + 7) / 8;
    if o + n > len { return false; }
    assert buf[at..at + len][o..o + n] == buf[at + o..at + o + n];
    SpliceWindow(buf[..], at, len, o, MaskBytes(buf[at + o..at + o + n], mask, f.bitSize, n));
    StoreMask(buf, at + o, mask, f.bitSize, n);
    return true;
  }
}
