/** Printing the items of a report descriptor as the Device Class Definition for HID 1.11
    lays them out (section 6.2.2), and the parser's reading of what was printed. */
module HidItems {
  import opened Bytes
  import opened HidBits
  import opened HidLayout

  // ------------------------------------------------------------ one item

  /** The sizes a short item's data can have. */
  predicate ShortSize(n: nat) { n == 0 || n == 1 || n == 2 || n == 4 }

  /** Section 6.2.2.2: tag, type and size code in one byte, then the data. Four bytes of
      data have the code 3. */
  function PrintShort(typ: nat, tag: nat, data: seq<byte>): seq<byte>
    requires typ < 4 && tag < 16 && ShortSize(|data|)
  {
    [16 * tag + 4 * typ + if |data| == 4 then 3 else |data|] + data
  }

  /** Section 6.2.2.3: 0xFE, the size, the tag, then the data. */
  function PrintLong(tag: byte, data: seq<byte>): seq<byte>
    requires |data| < 256
  {
    [0xFE, |data|, tag] + data
  }

  /** The one prefix that no short item has. */
  predicate Reserved(typ: nat, tag: nat, size: nat) {
    typ == 3 && tag == 15 && size == 2
  }

  /** b is the prefix of a short item with these parts. */
  predicate Prefixes(b: int, typ: nat, tag: nat, size: nat) {
    b != 0xFE && b / 4 % 4 == typ && b / 16 % 16 == tag && b % 4 == if size == 4 then 3 else size
  }

  lemma PrefixParts(b: int, typ: nat, tag: nat, size: nat)
    requires typ < 4 && tag < 16 && ShortSize(size) && !Reserved(typ, tag, size)
    requires b == 16 * tag + 4 * typ + if size == 4 then 3 else size
    ensures 0 <= b < 256 && Prefixes(b, typ, tag, size)
  {
  }

  lemma FetchParts(desc: seq<byte>, i: nat, typ: nat, tag: nat, size: nat)
    requires i < |desc| && ShortSize(size) && Prefixes(desc[i], typ, tag, size)
    ensures FetchItem(desc, i)
            == if i + 1 + size > |desc| then Truncated
               else Fetched(ShortItem(typ, tag, size, LeValue(desc[i + 1..i + 1 + size])), i + 1 + size)
  {
    hide LeValue;
  }

  lemma PartsAt(pre: seq<byte>, head: byte, data: seq<byte>, rest: seq<byte>)
    ensures var desc := pre + ([head] + data) + rest;
            desc[|pre|] == head && |desc| == |pre| + 1 + |data| + |rest| && desc[|pre| + 1..|pre| + 1 + |data|] == data
  {
  }

  /** A printed short item is fetched back, wherever it stands: type, tag, size, the value of
      its data in little-endian order, and the byte after it. */
  lemma FetchShort(pre: seq<byte>, typ: nat, tag: nat, data: seq<byte>, rest: seq<byte>)
    requires typ < 4 && tag < 16 && ShortSize(|data|) && !Reserved(typ, tag, |data|)
    ensures FetchItem(pre + PrintShort(typ, tag, data) + rest, |pre|)
            == Fetched(ShortItem(typ, tag, |data|, LeValue(data)), |pre| + 1 + |data|)
  {
    hide LeValue;
    hide FetchItem;
    hide Prefixes;
    var head: byte := 16 * tag + 4 * typ + if |data| == 4 then 3 else |data|;
    assert PrintShort(typ, tag, data) == [head] + data;
    PrefixParts(head, typ, tag, |data|);
    hide PrintShort;
    hide Reserved;
    PartsAt(pre, head, data, rest);
    FetchParts(pre + ([head] + data) + rest, |pre|, typ, tag, |data|);
  }

  lemma FetchLong(pre: seq<byte>, tag: byte, data: seq<byte>, rest: seq<byte>)
    requires |data| < 256
    ensures FetchItem(pre + PrintLong(tag, data) + rest, |pre|) == Fetched(LongItem, |pre| + 3 + |data|)
  {
    var desc := pre + PrintLong(tag, data) + rest;
    assert desc[|pre|] == 0xFE && desc[|pre| + 1] == |data|;
  }

  /** Whatever byte an item begins with: 0xFE begins a long item, any other is the prefix of
      exactly one type, tag and size. */
  lemma EveryPrefix(b: byte)
    ensures b != 0xFE ==> exists typ, tag, size: nat ::
              typ < 4 && tag < 16 && ShortSize(size) && !Reserved(typ, tag, size)
              && b == PrintShort(typ, tag, Zeroed(size))[0]
  {
    if b != 0xFE {
      var typ, tag, code := b / 4 % 4, b / 16 % 16, b % 4;
      var size: nat := if code == 3 then 4 else code;
      assert b == 16 * tag + 4 * typ + code;
      assert PrintShort(typ, tag, Zeroed(size))[0] == b;
    }
  }

  function Zeroed(n: nat): (s: seq<byte>)
    ensures |s| == n
  {
    seq(n, _ => 0)
  }

  /** An item that ends early is truncated, after any part of it. */
  lemma FetchCut(pre: seq<byte>, typ: nat, tag: nat, data: seq<byte>, n: nat)
    requires typ < 4 && tag < 16 && ShortSize(|data|) && !Reserved(typ, tag, |data|) && n < |data|
    ensures FetchItem(pre + PrintShort(typ, tag, data)[..1 + n], |pre|) == Truncated
  {
    hide FetchItem;
    hide Prefixes;
    var head, desc := PrintShort(typ, tag, data)[0], pre + PrintShort(typ, tag, data)[..1 + n];
    PrefixParts(head, typ, tag, |data|);
    assert desc[|pre|] == head;
    FetchParts(desc, |pre|, typ, tag, |data|);
  }

  lemma FetchLongCut(pre: seq<byte>, tag: byte, data: seq<byte>, n: nat)
    requires |data| < 256 && 1 <= n < 3 + |data|
    ensures FetchItem(pre + PrintLong(tag, data)[..n], |pre|) == Truncated
  {
    var p := PrintLong(tag, data);
    var desc := pre + p[..n];
    assert |desc| == |pre| + n && desc[|pre|] == p[0] == 0xFE;
    if n >= 3 {
      assert desc[|pre| + 1] == p[1] == |data|;
    }
  }

  /** Little-endian values, up to the four bytes an item can have. */
  lemma LittleEndian(a: byte, b: byte, c: byte, d: byte)
    ensures LeValue([]) == 0 && LeValue([a]) == a && LeValue([a, b]) == a as int + 256 * b as int
    ensures LeValue([a, b, c, d]) == a as int + 256 * b as int + 65536 * c as int + 16777216 * d as int
  {
    assert [a] == [a] + [] && [b] == [b] + [] && [d] == [d] + [] && [a, b] == [a] + [b];
    assert [c, d] == [c] + [d] && [b, c, d] == [b] + [c, d] && [a, b, c, d] == [a] + [b, c, d];
    LeFirst(a, []);
    LeFirst(b, []);
    LeFirst(d, []);
    LeFirst(a, [b]);
    LeFirst(c, [d]);
    LeFirst(b, [c, d]);
    LeFirst(a, [b, c, d]);
    hide LeValue;
  }

  lemma LeFirst(a: byte, rest: seq<byte>)
    ensures LeValue([]) == 0 && LeValue([a] + rest) == a as int + 256 * LeValue(rest)
  {
    assert ([a] + rest)[1..] == rest;
  }

  /** A signed item is the two's complement value of its one, two or four bytes. */
  lemma SignedValue(data: seq<byte>)
    requires ShortSize(|data|)
    ensures SignExtend(LeValue(data), |data|) == TwosComplement(data)
  {
    Spelled(data);
    if |data| > 0 {
      Widened(LeValue(data), |data|);
    }
    hide LeValue;
    hide SignExtend;
  }

  /** Negative exactly when the last byte's top bit is set. */
  function TwosComplement(data: seq<byte>): int
    requires ShortSize(|data|)
  {
    if |data| == 0 then 0
    else if |data| == 1 then data[0] as int - if data[0] < 128 then 0 else 0x100
    else if |data| == 2 then data[0] as int + 256 * data[1] as int - if data[1] < 128 then 0 else 0x1_0000
    else
      data[0] as int + 256 * data[1] as int + 65536 * data[2] as int + 16777216 * data[3] as int
      - if data[3] < 128 then 0 else 0x1_0000_0000
  }

  lemma Widened(v: nat, size: nat)
    requires size == 1 || size == 2 || size == 4
    ensures SignExtend(v, size)
            == if size == 1 then (if v >= 0x80 then v as int - 0x100 else v)
               else if size == 2 then (if v >= 0x8000 then v as int - 0x1_0000 else v)
               else (if v >= 0x8000_0000 then v as int - 0x1_0000_0000 else v)
  {
    Pow2Small();
    Pow2Wide();
    hide Pow2;
  }

  lemma Spelled(data: seq<byte>)
    requires ShortSize(|data|)
    ensures |data| == 0 ==> LeValue(data) == 0
    ensures |data| == 1 ==> LeValue(data) == data[0]
    ensures |data| == 2 ==> LeValue(data) == data[0] as int + 256 * data[1] as int
    ensures |data| == 4 ==>
              LeValue(data) == data[0] as int + 256 * data[1] as int + 65536 * data[2] as int + 16777216 * data[3] as int
  {
    if |data| == 1 {
      assert data == [data[0]];
      LittleEndian(data[0], 0, 0, 0);
    } else if |data| == 2 {
      assert data == [data[0], data[1]];
      LittleEndian(data[0], data[1], 0, 0);
    } else if |data| == 4 {
      assert data == [data[0], data[1], data[2], data[3]];
      LittleEndian(data[0], data[1], data[2], data[3]);
    }
  }

  // ------------------------------------------------------------ many items

  datatype Spec = Spec(typ: nat, tag: nat, data: seq<byte>)
  {
    predicate Ok() {
      typ < 4 && tag < 16 && ShortSize(|data|) && !Reserved(typ, tag, |data|)
    }

    function Parsed(): Item {
      ShortItem(typ, tag, |data|, LeValue(data))
    }
  }

  predicate AllOk(specs: seq<Spec>) {
    forall i :: 0 <= i < |specs| ==> specs[i].Ok()
  }

  function PrintSpecs(specs: seq<Spec>): seq<byte>
    requires AllOk(specs)
    decreases |specs|
  {
    if specs == [] then []
    else PrintShort(specs[0].typ, specs[0].tag, specs[0].data) + PrintSpecs(specs[1..])
  }

  function StepAll(s: State, specs: seq<Spec>): (t: State)
    requires s.Shaped()
    ensures t.Shaped()
    decreases |specs|
  {
    if specs == [] then s else StepAll(Step(s, specs[0].Parsed()), specs[1..])
  }

  /** The parser's walk over printed items applies them one after the other. */
  lemma {:induction false} WalkSpecs(pre: seq<byte>, specs: seq<Spec>, rest: seq<byte>, s: State)
    requires AllOk(specs) && s.Shaped()
    ensures var desc := pre + PrintSpecs(specs) + rest;
            WalkFrom(desc, |pre|, s) == WalkFrom(desc, |pre| + |PrintSpecs(specs)|, StepAll(s, specs))
    decreases |specs|
  {
    hide Step;
    hide PrintShort;
    hide FetchItem;
    if specs != [] {
      var x := specs[0];
      var one, more := PrintShort(x.typ, x.tag, x.data), PrintSpecs(specs[1..]);
      assert pre + PrintSpecs(specs) + rest == pre + one + (more + rest);
      assert pre + one + (more + rest) == (pre + one) + more + rest;
      FetchShort(pre, x.typ, x.tag, x.data, more + rest);
      ShortLength(x);
      WalkSpecs(pre + one, specs[1..], rest, Step(s, x.Parsed()));
    }
  }

  lemma ShortLength(x: Spec)
    requires x.Ok()
    ensures |PrintShort(x.typ, x.tag, x.data)| == 1 + |x.data|
  {
  }
}
