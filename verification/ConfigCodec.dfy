/** The gadget configuration as the control socket carries it: fixed-width fields and
    length-prefixed strings, encoded by GET_CONFIG and decoded by SET_CONFIG. */
module ConfigCodec {
  import opened Bytes

  type Text = seq<byte>

  datatype Config = Config(vid: u16, pid: u16, bcdUsb: u16, bcdDevice: u16,
                           deviceClass: byte, deviceSubclass: byte, deviceProtocol: byte, maxPower: byte,
                           hidProtocol: byte, hidSubclass: byte, reportLength: byte, interval: byte,
                           manufacturer: Text, product: Text, serial: Text, configuration: Text, reportHex: Text)

  // ------------------------------------------------------------ fields on the wire

  datatype Kind = Word | Octet | Chars

  datatype Field = AWord(word: u16) | AnOctet(octet: byte) | AChars(chars: Text)

  function KindOf(f: Field): Kind {
    match f case AWord(_) => Word case AnOctet(_) => Octet case AChars(_) => Chars
  }

  const COUNT: nat := 17

  /** The protocol's field list: <HHHHBBBHBBBB and five strings. */
  function KindAt(i: nat): Kind {
    if i < 4 || i == 7 then Word else if i < 12 then Octet else Chars
  }

  /** The field is of the kind its place demands, and a string fits its 16-bit length. */
  predicate Fits(f: Field, i: nat) {
    KindOf(f) == KindAt(i) && (f.AChars? ==> |f.chars| < 0x1_0000)
  }

  predicate AllFit(fs: seq<Field>) {
    forall i :: 0 <= i < |fs| ==> Fits(fs[i], i)
  }

  function Push16(v: u16): (s: seq<byte>)
    ensures |s| == 2
  {
    [v % 256, v / 256]
  }

  function Print(f: Field): seq<byte> {
    match f
    case AWord(v) => Push16(v)
    case AnOctet(v) => [v]
    case AChars(s) => Push16(|s| % 0x1_0000) + s
  }

  function PrintAll(fs: seq<Field>): seq<byte>
    decreases |fs|
  {
    if fs == [] then [] else PrintAll(fs[..|fs| - 1]) + Print(fs[|fs| - 1])
  }

  function Join(lo: byte, hi: byte): (v: u16)
    ensures Push16(v) == [lo, hi]
  {
    lo as int + 256 * hi as int
  }

  /** The cursor of the decoder. A read that would overrun clears ok and does not move. */
  datatype Reader = Reader(off: nat, ok: bool)

  function Rd16(p: seq<byte>, r: Reader): (u16, Reader) {
    if r.off + 2 > |p| then (0, r.(ok := false))
    else (Join(p[r.off], p[r.off + 1]), r.(off := r.off + 2))
  }

  function Rd8(p: seq<byte>, r: Reader): (byte, Reader) {
    if r.off + 1 > |p| then (0, r.(ok := false)) else (p[r.off], r.(off := r.off + 1))
  }

  /** When the length fits but the characters do not, the cursor stays behind the length. */
  function RdText(p: seq<byte>, r: Reader): (Text, Reader) {
    if r.off + 2 > |p| then ([], r.(ok := false))
    else
      var n := Join(p[r.off], p[r.off + 1]);
      if r.off + 2 + n > |p| then ([], Reader(r.off + 2, false))
      else (p[r.off + 2..r.off + 2 + n], r.(off := r.off + 2 + n))
  }

  function Read(p: seq<byte>, k: Kind, r: Reader): (Field, Reader) {
    match k
    case Word => var (v, s) := Rd16(p, r); (AWord(v), s)
    case Octet => var (v, s) := Rd8(p, r); (AnOctet(v), s)
    case Chars => var (v, s) := RdText(p, r); (AChars(v), s)
  }

  /** The first n fields of the layout, read in order. */
  function ReadAll(p: seq<byte>, n: nat): (seq<Field>, Reader)
    decreases n, |p|
  {
    if n == 0 then ([], Reader(0, true))
    else
      var (fs, r) := ReadAll(p, n - 1);
      var (f, s) := Read(p, KindAt(n - 1), r);
      (fs + [f], s)
  }

  // ------------------------------------------------------------ laws of the field codec

  /** p holds a at off. */
  predicate At(p: seq<byte>, off: nat, a: seq<byte>) {
    off + |a| <= |p| && p[off..off + |a|] == a
  }

  lemma JoinPushed(v: u16)
    ensures Join(v % 256, v / 256) == v
  {
  }

  lemma ReadText(p: seq<byte>, s: Text, off: nat)
    requires |s| < 0x1_0000 && At(p, off, Push16(|s|) + s)
    ensures RdText(p, Reader(off, true)) == (s, Reader(off + 2 + |s|, true))
  {
    var a := Push16(|s|) + s;
    JoinPushed(|s|);
    assert p[off] == a[0] == |s| % 256 && p[off + 1] == a[1] == |s| / 256 by {
      assert p[off..off + |a|][0] == a[0] && p[off..off + |a|][1] == a[1];
    }
    assert p[off + 2..off + 2 + |s|] == p[off..off + |a|][2..] == a[2..] == s;
  }

  lemma ReadPrinted(p: seq<byte>, f: Field, i: nat, off: nat)
    requires At(p, off, Print(f)) && Fits(f, i)
    ensures Read(p, KindAt(i), Reader(off, true)) == (f, Reader(off + |Print(f)|, true))
  {
    hide RdText;
    match f
    case AWord(v) =>
      JoinPushed(v);
      assert p[off..off + 2][0] == Print(f)[0] && p[off..off + 2][1] == Print(f)[1];
    case AnOctet(v) => assert p[off..off + 1][0] == v;
    case AChars(s) => ReadText(p, s, off);
  }

  lemma AtParts(p: seq<byte>, off: nat, a: seq<byte>, b: seq<byte>)
    requires At(p, off, a + b)
    ensures At(p, off, a) && At(p, off + |a|, b)
  {
    var w := p[off..off + |a| + |b|];
    assert w == a + b;
    assert w[..|a|] == a && w[|a|..] == b;
    assert p[off..off + |a|] == a by {
      assert forall i :: 0 <= i < |a| ==> p[off..off + |a|][i] == w[i];
    }
    assert p[off + |a|..off + |a| + |b|] == b by {
      forall i | 0 <= i < |b| ensures p[off + |a|..off + |a| + |b|][i] == b[i] {
        assert w[|a| + i] == b[i];
      }
    }
  }

  /** Reading what was printed gives it back, whatever follows. */
  lemma {:induction false} ReadAllPrinted(p: seq<byte>, fs: seq<Field>)
    requires AllFit(fs) && At(p, 0, PrintAll(fs))
    ensures ReadAll(p, |fs|) == (fs, Reader(|PrintAll(fs)|, true))
    decreases |fs|
  {
    hide Read;
    hide Print;
    hide At;
    if fs != [] {
      var n := |fs| - 1;
      AtParts(p, 0, PrintAll(fs[..n]), Print(fs[n]));
      ReadAllPrinted(p, fs[..n]);
      assert Fits(fs[n], n);
      ReadPrinted(p, fs[n], n, |PrintAll(fs[..n])|);
      assert fs == fs[..n] + [fs[n]];
    }
  }

  lemma {:induction false} FailureStays(p: seq<byte>, m: nat, n: nat)
    requires m <= n && !ReadAll(p, m).1.ok
    ensures !ReadAll(p, n).1.ok
    decreases n
  {
    if m < n {
      FailureStays(p, m, n - 1);
    }
  }

  /** What a successful read consumed is the printed form of what it returned. */
  lemma ReadPrints(p: seq<byte>, i: nat, off: nat)
    requires Read(p, KindAt(i), Reader(off, true)).1.ok
    ensures var (f, s) := Read(p, KindAt(i), Reader(off, true));
            Fits(f, i) && At(p, off, Print(f)) && s == Reader(off + |Print(f)|, true)
  {
    hide Join;
    hide Push16;
    match KindAt(i)
    case Word => assert p[off..off + 2] == [p[off], p[off + 1]];
    case Octet => assert p[off..off + 1] == [p[off]];
    case Chars => TextPrints(p, off);
  }

  lemma TextPrints(p: seq<byte>, off: nat)
    requires RdText(p, Reader(off, true)).1.ok
    ensures var (s, r) := RdText(p, Reader(off, true));
            |s| < 0x1_0000 && At(p, off, Push16(|s|) + s) && r == Reader(off + 2 + |s|, true)
  {
    hide Join;
    hide Push16;
    var n := Join(p[off], p[off + 1]);
    assert p[off..off + 2] == [p[off], p[off + 1]] == Push16(n);
    assert p[off..off + 2 + n] == p[off..off + 2] + p[off + 2..off + 2 + n];
  }

  lemma AtJoin(p: seq<byte>, off: nat, a: seq<byte>, b: seq<byte>)
    requires At(p, off, a) && At(p, off + |a|, b)
    ensures At(p, off, a + b)
  {
    assert p[off..off + |a| + |b|] == p[off..off + |a|] + p[off + |a|..off + |a| + |b|];
  }

  /** A successful decode is a printed field list at the start of the payload. */
  lemma {:induction false} ReadAllPrints(p: seq<byte>, n: nat)
    requires ReadAll(p, n).1.ok
    ensures var (fs, r) := ReadAll(p, n);
            |fs| == n && AllFit(fs) && At(p, 0, PrintAll(fs)) && r == Reader(|PrintAll(fs)|, true)
    decreases n
  {
    hide Read;
    hide Print;
    if n > 0 {
      if !ReadAll(p, n - 1).1.ok {
        FailureStays(p, n - 1, n);
      }
      ReadAllPrints(p, n - 1);
      var (fs, r) := ReadAll(p, n - 1);
      ReadPrints(p, n - 1, r.off);
      var (f, s) := Read(p, KindAt(n - 1), r);
      AtJoin(p, 0, PrintAll(fs), Print(f));
      assert (fs + [f])[..n - 1] == fs;
    }
  }

  // ------------------------------------------------------------ the configuration

  /** The fields in the order of the protocol; max_power is one byte sent as two. */
  function FieldAt(c: Config, i: nat): Field
    requires i < COUNT
  {
    if i == 0 then AWord(c.vid) else if i == 1 then AWord(c.pid)
    else if i == 2 then AWord(c.bcdUsb) else if i == 3 then AWord(c.bcdDevice)
    else if i == 4 then AnOctet(c.deviceClass) else if i == 5 then AnOctet(c.deviceSubclass)
    else if i == 6 then AnOctet(c.deviceProtocol) else if i == 7 then AWord(c.maxPower)
    else if i == 8 then AnOctet(c.hidProtocol) else if i == 9 then AnOctet(c.hidSubclass)
    else if i == 10 then AnOctet(c.reportLength) else if i == 11 then AnOctet(c.interval)
    else if i == 12 then AChars(c.manufacturer) else if i == 13 then AChars(c.product)
    else if i == 14 then AChars(c.serial) else if i == 15 then AChars(c.configuration)
    else AChars(c.reportHex)
  }

  function FieldsOf(c: Config): (fs: seq<Field>)
    ensures |fs| == COUNT
  {
    seq(COUNT, i requires 0 <= i < COUNT => FieldAt(c, i))
  }

  predicate Complete(fs: seq<Field>) {
    |fs| == COUNT && forall i :: 0 <= i < COUNT ==> KindOf(fs[i]) == KindAt(i)
  }

  /** The configuration the decoder assembles; max_power is cut to its low byte. */
  function ConfigOf(fs: seq<Field>): Config
    requires Complete(fs)
  {
    Config(fs[0].word, fs[1].word, fs[2].word, fs[3].word,
           fs[4].octet, fs[5].octet, fs[6].octet, fs[7].word % 256,
           fs[8].octet, fs[9].octet, fs[10].octet, fs[11].octet,
           fs[12].chars, fs[13].chars, fs[14].chars, fs[15].chars, fs[16].chars)
  }

  function Encode(c: Config): seq<byte> {
    PrintAll(FieldsOf(c))
  }

  datatype Decoded = Ok(config: Config) | Rejected

  lemma {:induction false} ReadAllKinds(p: seq<byte>, n: nat)
    ensures |ReadAll(p, n).0| == n && forall i :: 0 <= i < n ==> KindOf(ReadAll(p, n).0[i]) == KindAt(i)
    decreases n
  {
    if n > 0 {
      ReadAllKinds(p, n - 1);
    }
  }

  function Decode(p: seq<byte>): Decoded {
    ReadAllKinds(p, COUNT);
    if ReadAll(p, COUNT).1.ok then Ok(ConfigOf(ReadAll(p, COUNT).0)) else Rejected
  }

  /** Every string has a length the 16-bit prefix can say. */
  predicate Encodable(c: Config) {
    && |c.manufacturer| < 0x1_0000 && |c.product| < 0x1_0000 && |c.serial| < 0x1_0000
    && |c.configuration| < 0x1_0000 && |c.reportHex| < 0x1_0000
  }

  lemma FieldsFit(c: Config)
    requires Encodable(c)
    ensures AllFit(FieldsOf(c)) && Complete(FieldsOf(c)) && ConfigOf(FieldsOf(c)) == c
  {
  }

  /** A decoded configuration has strings that their prefixes could say. */
  lemma DecodedIsEncodable(p: seq<byte>)
    requires Decode(p).Ok?
    ensures Encodable(Decode(p).config)
  {
    hide ReadAll;
    hide PrintAll;
    hide At;
    ReadAllKinds(p, COUNT);
    ReadAllPrints(p, COUNT);
    var fs := ReadAll(p, COUNT).0;
    assert Fits(fs[12], 12) && Fits(fs[13], 13) && Fits(fs[14], 14) && Fits(fs[15], 15) && Fits(fs[16], 16);
  }

  /** Decoding an encoded configuration gives it back, whatever bytes follow, exactly when
      none of its strings is longer than its prefix can say. */
  lemma RoundTrip(c: Config, tail: seq<byte>)
    ensures Decode(Encode(c) + tail) == Ok(c) <==> Encodable(c)
  {
    hide FieldsOf;
    hide AllFit;
    hide PrintAll;
    hide ReadAll;
    hide ConfigOf;
    hide Decode;
    var p := Encode(c) + tail;
    if Encodable(c) {
      EncodedDecodes(c, p);
    } else if Decode(p) == Ok(c) {
      DecodedIsEncodable(p);
    }
  }

  lemma EncodedDecodes(c: Config, p: seq<byte>)
    requires Encodable(c) && Encode(c) <= p
    ensures Decode(p) == Ok(c)
  {
    hide FieldsOf;
    hide AllFit;
    hide PrintAll;
    hide ReadAll;
    hide ConfigOf;
    FieldsFit(c);
    assert p[0..|Encode(c)|] == Encode(c);
    ReadAllPrinted(p, FieldsOf(c));
  }

  /** Every strict prefix of an encoding is rejected. */
  lemma PrefixRejected(c: Config, n: nat)
    requires Encodable(c) && n < |Encode(c)|
    ensures Decode(Encode(c)[..n]) == Rejected
  {
    hide FieldsOf;
    hide AllFit;
    hide PrintAll;
    hide ReadAll;
    hide ConfigOf;
    hide Complete;
    var e := Encode(c);
    var p := e[..n];
    if ReadAll(p, COUNT).1.ok {
      ReadAllPrints(p, COUNT);
      var fs := ReadAll(p, COUNT).0;
      assert e[0..|PrintAll(fs)|] == p[0..|PrintAll(fs)|];
      ReadAllPrinted(e, fs);
      FieldsFit(c);
      assert e[0..|e|] == e;
      ReadAllPrinted(e, FieldsOf(c));
    }
  }

  /** A payload is accepted exactly when it begins with a printed field list; what follows
      is ignored. */
  lemma AcceptsExactly(p: seq<byte>)
    ensures Decode(p).Ok? <==> exists fs :: Complete(fs) && AllFit(fs) && At(p, 0, PrintAll(fs))
  {
    hide PrintAll;
    hide At;
    hide AllFit;
    hide ReadAll;
    ReadAllKinds(p, COUNT);
    if Decode(p).Ok? {
      ReadAllPrints(p, COUNT);
    }
    forall fs | Complete(fs) && AllFit(fs) && At(p, 0, PrintAll(fs)) ensures Decode(p).Ok? {
      ReadAllPrinted(p, fs);
    }
  }

  /** A payload that begins with the printed fields fs is accepted; encoding its
      configuration gives the payload back exactly when the max_power it carried fits the
      one byte it is kept in. */
  lemma EncodeAfterDecode(p: seq<byte>, fs: seq<Field>)
    requires Complete(fs) && AllFit(fs) && At(p, 0, PrintAll(fs))
    ensures Decode(p).Ok? && (At(p, 0, Encode(Decode(p).config)) <==> fs[7].word < 256)
  {
    hide PrintAll;
    hide At;
    hide ReadAll;
    hide FieldsOf;
    ReadAllKinds(p, COUNT);
    ReadAllPrinted(p, fs);
    var c := Decode(p).config;
    assert Encodable(c) by {
      assert Fits(fs[12], 12) && Fits(fs[13], 13) && Fits(fs[14], 14) && Fits(fs[15], 15) && Fits(fs[16], 16);
    }
    FieldsFit(c);
    if At(p, 0, Encode(c)) {
      ReadAllPrinted(p, FieldsOf(c));
      MaxPowerSmall(c);
    }
    if fs[7].word < 256 {
      FieldsOfConfig(fs);
    }
  }

  predicate NotGivenBack(p: seq<byte>) {
    Decode(p).Ok? && !At(p, 0, Encode(Decode(p).config))
  }

  /** A payload whose max_power is 256 is accepted and not given back. */
  lemma MaxPowerIsCut()
    ensures exists p :: NotGivenBack(p)
  {
    hide PrintAll;
    hide ReadAll;
    var fs := FieldsOf(Config(0, 0, 0, 0, 0, 0, 0, 0, 0, 0, 0, 0, [], [], [], [], []))[7 := AWord(256)];
    var p := PrintAll(fs);
    assert p[0..|p|] == p;
    EncodeAfterDecode(p, fs);
    assert NotGivenBack(p);
  }

  lemma MaxPowerSmall(c: Config)
    ensures FieldsOf(c)[7].AWord? && FieldsOf(c)[7].word < 256
  {
  }

  lemma FieldsOfConfig(fs: seq<Field>)
    requires Complete(fs) && fs[7].word < 256
    ensures FieldsOf(ConfigOf(fs)) == fs
  {
  }

  // ------------------------------------------------------------ the code

  /** The decoder's cursor over one payload; got is what it has returned so far. */
  class Cursor {
    const payload: seq<byte>
    var off: nat
    var ok: bool
    ghost var got: seq<Field>

    ghost predicate Valid()
      reads this
    {
      ReadAll(payload, |got|) == (got, Reader(off, ok))
    }

    constructor (p: seq<byte>)
      ensures Valid() && payload == p && got == []
    {
      payload, off, ok, got := p, 0, true, [];
    }

    method Rd16() returns (v: u16)
      requires Valid() && KindAt(|got|) == Word
      modifies this
      ensures Valid() && got == old(got) + [AWord(v)]
    {
      hide Join;
      if off + 2 > |payload| {
        ok, v := false, 0;
      } else {
        v := Join(payload[off], payload[off + 1]);
        off := off + 2;
      }
      got := got + [AWord(v)];
    }

    method Rd8() returns (v: byte)
      requires Valid() && KindAt(|got|) == Octet
      modifies this
      ensures Valid() && got == old(got) + [AnOctet(v)]
    {
      if off + 1 > |payload| {
        ok, v := false, 0;
      } else {
        v := payload[off];
        off := off + 1;
      }
      got := got + [AnOctet(v)];
    }

    method RdStr() returns (v: Text)
      requires Valid() && KindAt(|got|) == Chars
      modifies this
      ensures Valid() && got == old(got) + [AChars(v)]
    {
      hide Join;
      hide KindAt;
      v := [];
      if off + 2 > |payload| {
        ok := false;
      } else {
        var n := Join(payload[off], payload[off + 1]);
        off := off + 2;
        if off + n > |payload| {
          ok := false;
        } else {
          v := payload[off..off + n];
          off := off + n;
        }
      }
      got := got + [AChars(v)];
    }
  }

  /** The response being built; put is what has been pushed so far. */
  class Writer {
    var out: seq<byte>
    ghost var put: seq<Field>

    ghost predicate Valid()
      reads this
    {
      out == PrintAll(put)
    }

    constructor ()
      ensures Valid() && put == []
    {
      out, put := [], [];
    }

    method PushWord(v: u16)
      requires Valid()
      modifies this
      ensures Valid() && put == old(put) + [AWord(v)]
    {
      ghost var f := AWord(v);
      Pushed(put, f);
      out := out + [v % 256, v / 256];
      put := put + [f];
    }

    method PushOctet(v: byte)
      requires Valid()
      modifies this
      ensures Valid() && put == old(put) + [AnOctet(v)]
    {
      ghost var f := AnOctet(v);
      Pushed(put, f);
      out := out + [v];
      put := put + [f];
    }

    method PushStr(s: Text)
      requires Valid()
      modifies this
      ensures Valid() && put == old(put) + [AChars(s)]
    {
      ghost var f := AChars(s);
      Pushed(put, f);
      var n := |s| % 0x1_0000;
      out := out + ([n % 256, n / 256] + s);
      put := put + [f];
    }
  }

  lemma Pushed(put: seq<Field>, f: Field)
    ensures PrintAll(put + [f]) == PrintAll(put) + Print(f)
  {
    assert (put + [f])[..|put|] == put;
  }

  /** g_gadget_config and the two functions that carry it over the socket. */
  class Store {
    var config: Config

    constructor (initial: Config)
      ensures config == initial
    {
      config := initial;
    }

    /** The fixed-width part of encode_config_payload. */
    method EncodeFixed(w: Writer)
      requires w.Valid() && w.put == []
      modifies w
      ensures w.Valid() && w.put == FieldsOf(config)[..12]
    {
      hide PrintAll;
      w.PushWord(config.vid);
      w.PushWord(config.pid);
      w.PushWord(config.bcdUsb);
      w.PushWord(config.bcdDevice);
      w.PushOctet(config.deviceClass);
      w.PushOctet(config.deviceSubclass);
      w.PushOctet(config.deviceProtocol);
      w.PushWord(config.maxPower);
      w.PushOctet(config.hidProtocol);
      w.PushOctet(config.hidSubclass);
      w.PushOctet(config.reportLength);
      w.PushOctet(config.interval);
    }

    /** encode_config_payload. */
    method EncodeConfigPayload() returns (out: seq<byte>)
      ensures out == Encode(config)
    {
      hide PrintAll;
      var w := new Writer();
      EncodeFixed(w);
      ghost var first := w.put;
      w.PushStr(config.manufacturer);
      w.PushStr(config.product);
      w.PushStr(config.serial);
      w.PushStr(config.configuration);
      w.PushStr(config.reportHex);
      assert w.put == FieldsOf(config);
      return w.out;
    }

    /** The fixed-width part of decode_config_payload; the strings are still empty. */
    method DecodeFixed(c: Cursor) returns (r: Config)
      requires c.Valid() && c.got == []
      modifies c
      ensures c.Valid() && |c.got| == 12
      ensures c.got[0] == AWord(r.vid) && c.got[1] == AWord(r.pid) && c.got[2] == AWord(r.bcdUsb)
      ensures c.got[3] == AWord(r.bcdDevice) && c.got[4] == AnOctet(r.deviceClass)
      ensures c.got[5] == AnOctet(r.deviceSubclass) && c.got[6] == AnOctet(r.deviceProtocol)
      ensures c.got[7].AWord? && c.got[7].word % 256 == r.maxPower
      ensures c.got[8] == AnOctet(r.hidProtocol) && c.got[9] == AnOctet(r.hidSubclass)
      ensures c.got[10] == AnOctet(r.reportLength) && c.got[11] == AnOctet(r.interval)
    {
      hide ReadAll;
      var vid := c.Rd16();
      var pid := c.Rd16();
      var bcdUsb := c.Rd16();
      var bcdDevice := c.Rd16();
      var deviceClass := c.Rd8();
      var deviceSubclass := c.Rd8();
      var deviceProtocol := c.Rd8();
      var maxPower := c.Rd16();
      var hidProtocol := c.Rd8();
      var hidSubclass := c.Rd8();
      var reportLength := c.Rd8();
      var interval := c.Rd8();
      r := Config(vid, pid, bcdUsb, bcdDevice, deviceClass, deviceSubclass, deviceProtocol, maxPower % 256,
                  hidProtocol, hidSubclass, reportLength, interval, [], [], [], [], []);
    }

    /** decode_config_payload: the configuration changes as a whole or not at all. */
    method DecodeConfigPayload(payload: seq<byte>) returns (ok: bool)
      modifies this
      ensures ok == Decode(payload).Ok?
      ensures config == if ok then Decode(payload).config else old(config)
    {
      hide ReadAll;
      hide Join;
      var c := new Cursor(payload);
      var fixed := DecodeFixed(c);
      ghost var first := c.got;
      var manufacturer := c.RdStr();
      var product := c.RdStr();
      var serial := c.RdStr();
      var configuration := c.RdStr();
      var reportHex := c.RdStr();
      if !c.ok { return false; }
      assert c.got[..12] == first;
      config := fixed.(manufacturer := manufacturer, product := product, serial := serial,
                       configuration := configuration, reportHex := reportHex);
      return true;
    }
  }

  // ------------------------------------------------------------ the bytes themselves

  /** A string as the protocol counts it: its length in two bytes, the low one first. */
  function Counted(s: Text): seq<byte> {
    [|s| % 256, |s| / 256 % 256] + s
  }

  /** Bytes 0 to 16 of every payload. */
  function Fixed(c: Config): seq<byte> {
    [c.vid % 256, c.vid / 256, c.pid % 256, c.pid / 256, c.bcdUsb % 256, c.bcdUsb / 256,
     c.bcdDevice % 256, c.bcdDevice / 256, c.deviceClass, c.deviceSubclass, c.deviceProtocol, c.maxPower, 0,
     c.hidProtocol, c.hidSubclass, c.reportLength, c.interval]
  }

  lemma PrintNext(fs: seq<Field>, n: nat)
    requires n < |fs|
    ensures PrintAll(fs[..n + 1]) == PrintAll(fs[..n]) + Print(fs[n])
  {
    assert fs[..n + 1][..n] == fs[..n];
  }

  lemma PrintFour(fs: seq<Field>, n: nat)
    requires n + 4 <= |fs|
    ensures PrintAll(fs[..n + 4])
            == PrintAll(fs[..n]) + (Print(fs[n]) + Print(fs[n + 1]) + Print(fs[n + 2]) + Print(fs[n + 3]))
  {
    hide Print;
    hide PrintAll;
    PrintNext(fs, n);
    PrintNext(fs, n + 1);
    PrintNext(fs, n + 2);
    PrintNext(fs, n + 3);
    FiveJoined(PrintAll(fs[..n]), Print(fs[n]), Print(fs[n + 1]), Print(fs[n + 2]), Print(fs[n + 3]));
  }

  lemma FiveJoined(a: seq<byte>, b: seq<byte>, c: seq<byte>, d: seq<byte>, e: seq<byte>)
    ensures a + b + c + d + e == a + (b + c + d + e)
  {
  }

  /** The payload, byte by byte: seventeen fixed bytes, then the five strings. */
  lemma EncodeExactly(c: Config)
    requires Encodable(c)
    ensures Encode(c) == Fixed(c) + Counted(c.manufacturer) + Counted(c.product) + Counted(c.serial)
                         + Counted(c.configuration) + Counted(c.reportHex)
  {
    var fs := FieldsOf(c);
    FixedPrinted(c);
    PrintLastFive(fs);
    CharsPrinted(c.manufacturer);
    CharsPrinted(c.product);
    CharsPrinted(c.serial);
    CharsPrinted(c.configuration);
    CharsPrinted(c.reportHex);
    hide Counted;
    hide Fixed;
    hide Print;
    hide PrintAll;
    hide FieldsOf;
    StringFields(c);
  }

  lemma StringFields(c: Config)
    ensures var fs := FieldsOf(c);
            && fs[12] == AChars(c.manufacturer) && fs[13] == AChars(c.product) && fs[14] == AChars(c.serial)
            && fs[15] == AChars(c.configuration) && fs[16] == AChars(c.reportHex)
  {
  }

  lemma CharsPrinted(s: Text)
    requires |s| < 0x1_0000
    ensures Print(AChars(s)) == Counted(s)
  {
  }

  lemma PrintLastFive(fs: seq<Field>)
    requires |fs| == 17
    ensures PrintAll(fs) == PrintAll(fs[..12]) + Print(fs[12]) + Print(fs[13]) + Print(fs[14]) + Print(fs[15]) + Print(fs[16])
  {
    hide Print;
    hide PrintAll;
    PrintNext(fs, 12);
    PrintNext(fs, 13);
    PrintNext(fs, 14);
    PrintNext(fs, 15);
    PrintNext(fs, 16);
    assert fs[..17] == fs;
  }

  lemma FixedPrinted(c: Config)
    ensures PrintAll(FieldsOf(c)[..12]) == Fixed(c)
  {
    var fs := FieldsOf(c);
    assert fs[..0] == [];
    PrintFour(fs, 0);
    PrintFour(fs, 4);
    PrintFour(fs, 8);
    hide PrintAll;
    assert PrintAll(fs[..0]) == [];
  }
}
