/** Rewriting a configuration descriptor in place, on its way to the host, so that it shows
    the remapped endpoints. USB 2.0 sections 9.6.3 to 9.6.6. */
module DescriptorRewrite {
  import opened Bytes
  import opened EndpointRemap
  import opened Wrappers

  const DT_CONFIG: byte := 2
  const DT_INTERFACE: byte := 4
  const DT_ENDPOINT: byte := 5
  const DT_OTHER_SPEED_CONFIG: byte := 7
  const DT_CS_INTERFACE: byte := 0x24
  const CLASS_VIDEO: byte := 0x0e
  const SC_VIDEOSTREAMING: byte := 2
  const VS_INPUT_HEADER: byte := 1

  /** The altsetting in force while walking, |alts| for none, and the endpoint count since. */
  datatype Cursor = Cursor(alt: nat, endpoint: nat)

  predicate Current(alts: seq<Alt>, c: Cursor) {
    c.alt < |alts|
  }

  predicate HasEndpoint(alts: seq<Alt>, c: Cursor) {
    Current(alts, c) && c.endpoint < |alts[c.alt].endpoints|
  }

  /** find_altsetting: the first with this number and setting, or |alts|. */
  function FindAlt(alts: seq<Alt>, number: byte, setting: byte, j: nat): (r: nat)
    requires j <= |alts|
    ensures j <= r <= |alts| && (r < |alts| ==> alts[r].number == number && alts[r].setting == setting)
    ensures forall i :: j <= i < r ==> !(alts[i].number == number && alts[i].setting == setting)
    decreases |alts| - j
  {
    if j == |alts| || (alts[j].number == number && alts[j].setting == setting) then j
    else FindAlt(alts, number, setting, j + 1)
  }

  /** find_first_streaming_ep: the first altsetting of the interface with endpoints, or |alts|. */
  function FindStreaming(alts: seq<Alt>, number: byte, j: nat): (r: nat)
    requires j <= |alts|
    ensures j <= r <= |alts| && (r < |alts| ==> alts[r].number == number && alts[r].endpoints != [])
    ensures forall i :: j <= i < r ==> !(alts[i].number == number && alts[i].endpoints != [])
    decreases |alts| - j
  {
    if j == |alts| || (alts[j].number == number && alts[j].endpoints != []) then j
    else FindStreaming(alts, number, j + 1)
  }

  /** The altsetting whose first endpoint a VideoStreaming input header announces, or |alts|. */
  function HeaderAlt(alts: seq<Alt>, c: Cursor): (r: nat)
    requires Current(alts, c)
    ensures r < |alts| ==> alts[r].endpoints != []
  {
    if alts[c.alt].endpoints != [] then c.alt else FindStreaming(alts, alts[c.alt].number, 0)
  }

  function Move(alts: seq<Alt>, c: Cursor, dtype: byte, number: byte, setting: byte): Cursor {
    if dtype == DT_INTERFACE then Cursor(FindAlt(alts, number, setting, 0), 0)
    else if dtype == DT_ENDPOINT && HasEndpoint(alts, c) then c.(endpoint := c.endpoint + 1)
    else c
  }

  /** The endpoint address, and what still fits of packet size and interval. */
  function PutEndpoint(s: seq<byte>, length: nat, offset: nat, ep: Endpoint): (r: seq<byte>)
    requires offset + 2 <= length && length + 2 <= |s|
    ensures |r| == |s|
  {
    var t := s[offset + 2 := ep.address];
    if offset + 6 < length
    then t[offset + 4 := ep.maxPacket % 256][offset + 5 := ep.maxPacket / 256][offset + 6 := ep.interval]
    else t
  }

  predicate IsInputHeader(s: seq<byte>, length: nat, offset: nat, alts: seq<Alt>, c: Cursor)
    requires offset + 2 <= length && length + 2 <= |s|
  {
    && s[offset + 1] == DT_CS_INTERFACE && Current(alts, c)
    && alts[c.alt].class_ == CLASS_VIDEO && alts[c.alt].subclass == SC_VIDEOSTREAMING
    && s[offset + 2] == VS_INPUT_HEADER && offset + 6 < length
  }

  /** What the walk writes at one descriptor. */
  function PutOne(s: seq<byte>, length: nat, offset: nat, alts: seq<Alt>, c: Cursor): (r: seq<byte>)
    requires offset + 2 <= length && length + 2 <= |s|
    ensures |r| == |s|
  {
    if s[offset + 1] == DT_ENDPOINT && HasEndpoint(alts, c) then
      PutEndpoint(s, length, offset, alts[c.alt].endpoints[c.endpoint])
    else if IsInputHeader(s, length, offset, alts, c) && HeaderAlt(alts, c) < |alts| then
      s[offset + 6 := alts[HeaderAlt(alts, c)].endpoints[0].address]
    else s
  }

  /** The walk goes on at offset: a whole descriptor starts there. */
  predicate WholeAt(s: seq<byte>, length: nat, offset: nat)
    requires length <= |s|
  {
    offset + 2 <= length && s[offset] != 0 && offset + s[offset] <= length
  }

  /** The buffer after the walk from offset on. */
  function RewriteFrom(alts: seq<Alt>, s: seq<byte>, length: nat, offset: nat, c: Cursor): (r: seq<byte>)
    requires length + 2 <= |s|
    ensures |r| == |s|
    decreases length - offset
  {
    if !WholeAt(s, length, offset) then s
    else
      RewriteFrom(alts, PutOne(s, length, offset, alts, c), length, offset + s[offset],
                  Move(alts, c, s[offset + 1], s[offset + 2], s[offset + 3]))
  }

  function Rewrite(alts: seq<Alt>, s: seq<byte>, length: nat): (r: seq<byte>)
    requires length + 2 <= |s|
    ensures |r| == |s|
  {
    RewriteFrom(alts, s, length, 0, Cursor(|alts|, 0))
  }

  // ------------------------------------------------------------ in place

  /** Two bytes after the buffer, which the specification may look at and the code may not. */
  const PAD: seq<byte> := [0, 0]

  /** What the walk touches of the descriptor at offset lies within the first cap bytes. */
  predicate Touches(alts: seq<Alt>, dtype: byte, offset: nat, c: Cursor, cap: nat) {
    && (dtype == DT_INTERFACE ==> offset + 4 <= cap)
    && (dtype == DT_ENDPOINT && HasEndpoint(alts, c) ==> offset + 3 <= cap)
    && (dtype == DT_CS_INTERFACE && Current(alts, c) && alts[c.alt].class_ == CLASS_VIDEO ==> offset + 3 <= cap)
  }

  /** And so it is along the whole walk: a descriptor cut off at the very end of the buffer
      is none that the walk looks into. */
  predicate Contained(alts: seq<Alt>, s: seq<byte>, length: nat, offset: nat, c: Cursor, cap: nat)
    requires length + 2 <= |s|
    decreases length - offset
  {
    WholeAt(s, length, offset) ==>
      && Touches(alts, s[offset + 1], offset, c, cap)
      && Contained(alts, PutOne(s, length, offset, alts, c), length, offset + s[offset],
                   Move(alts, c, s[offset + 1], s[offset + 2], s[offset + 3]), cap)
  }

  /** Two spare bytes are always enough. */
  lemma {:induction false} SpareContains(alts: seq<Alt>, s: seq<byte>, length: nat, offset: nat, c: Cursor, cap: nat)
    requires length + 2 <= |s| && length + 2 <= cap
    ensures Contained(alts, s, length, offset, c, cap)
    decreases length - offset
  {
    hide PutOne;
    hide Move;
    if WholeAt(s, length, offset) {
      SpareContains(alts, PutOne(s, length, offset, alts, c), length, offset + s[offset],
                    Move(alts, c, s[offset + 1], s[offset + 2], s[offset + 3]), cap);
    }
  }

  lemma PutOnePadded(s: seq<byte>, length: nat, offset: nat, alts: seq<Alt>, c: Cursor)
    requires offset + 2 <= length && length + 2 <= |s|
    ensures PutOne(s + PAD, length, offset, alts, c) == PutOne(s, length, offset, alts, c) + PAD
  {
    hide HeaderAlt;
  }

  /** With spare bytes the padding changes nothing. */
  lemma {:induction false} RewritePadded(alts: seq<Alt>, s: seq<byte>, length: nat, offset: nat, c: Cursor)
    requires length + 2 <= |s|
    ensures RewriteFrom(alts, s + PAD, length, offset, c) == RewriteFrom(alts, s, length, offset, c) + PAD
    decreases length - offset
  {
    hide PutOne;
    hide Move;
    if WholeAt(s, length, offset) {
      PutOnePadded(s, length, offset, alts, c);
      RewritePadded(alts, PutOne(s, length, offset, alts, c), length, offset + s[offset],
                    Move(alts, c, s[offset + 1], s[offset + 2], s[offset + 3]));
    }
  }

  lemma PadUpdate(s: seq<byte>, i: nat, b: byte)
    requires i < |s|
    ensures (s + PAD)[i := b] == s[i := b] + PAD
  {
  }

  /** The write part of one turn of the loop. */
  method PutAt(alts: seq<Alt>, data: array<byte>, length: nat, offset: nat, c: Cursor)
    requires offset + 2 <= length <= data.Length && Touches(alts, data[offset + 1], offset, c, data.Length)
    modifies data
    ensures data[..] + PAD == PutOne(old(data[..]) + PAD, length, offset, alts, c)
  {
    var dtype := data[offset + 1];
    ghost var s := data[..];
    if dtype == DT_ENDPOINT {
      if HasEndpoint(alts, c) {
        var ep := alts[c.alt].endpoints[c.endpoint];
        PadUpdate(s, offset + 2, ep.address);
        data[offset + 2] := ep.address;
        if offset + 6 < length {
          PadUpdate(data[..], offset + 4, ep.maxPacket % 256);
          data[offset + 4] := ep.maxPacket % 256;
          PadUpdate(data[..], offset + 5, ep.maxPacket / 256);
          data[offset + 5] := ep.maxPacket / 256;
        }
        if offset + 7 <= length {
          PadUpdate(data[..], offset + 6, ep.interval);
          data[offset + 6] := ep.interval;
        }
      }
    } else if dtype == DT_CS_INTERFACE {
      if Current(alts, c) && alts[c.alt].class_ == CLASS_VIDEO {
        var subtype := data[offset + 2];
        if subtype == VS_INPUT_HEADER && alts[c.alt].subclass == SC_VIDEOSTREAMING {
          if offset + 6 < length {
            var j := HeaderAlt(alts, c);
            if j < |alts| {
              PadUpdate(s, offset + 6, alts[j].endpoints[0].address);
              data[offset + 6] := alts[j].endpoints[0].address;
            }
          }
        }
      }
    }
  }

  /** Only configuration descriptors (2) and those for the other speed (7) are rewritten. */
  predicate Rewrites(remapping: bool, descriptorType: byte, index: byte, configs: seq<seq<Alt>>) {
    remapping && descriptorType in {2, 7} && index < |configs|
  }

  /** rewrite_descriptor_addresses, wherever the walk stays inside the transfer buffer. */
  method RewriteInPlace(remapping: bool, descriptorType: byte, index: byte, configs: seq<seq<Alt>>,
                        data: array<byte>, length: nat)
    requires length <= data.Length
    requires Rewrites(remapping, descriptorType, index, configs) ==>
               var alts := configs[index];
               Contained(alts, data[..] + PAD, length, 0, Cursor(|alts|, 0), data.Length)
    modifies data
    ensures if Rewrites(remapping, descriptorType, index, configs)
            then data[..] + PAD == Rewrite(configs[index], old(data[..]) + PAD, length)
            else data[..] == old(data[..])
    ensures Rewrites(remapping, descriptorType, index, configs) && length + 2 <= data.Length ==>
              data[..] == Rewrite(configs[index], old(data[..]), length)
  {
    hide PutOne;
    hide Move;
    if !remapping { return; }
    if descriptorType != DT_CONFIG && descriptorType != DT_OTHER_SPEED_CONFIG { return; }
    if index >= |configs| { return; }
    var alts := configs[index];
    var c := Cursor(|alts|, 0);
    var offset := 0;
    while offset + 2 <= length
      invariant Contained(alts, data[..] + PAD, length, offset, c, data.Length)
      invariant RewriteFrom(alts, data[..] + PAD, length, offset, c) == Rewrite(alts, old(data[..]) + PAD, length)
      decreases length - offset
    {
      ghost var s := data[..] + PAD;
      var dlen, dtype := data[offset], data[offset + 1];
      assert dlen == s[offset] && dtype == s[offset + 1];
      if dlen == 0 { break; }
      if offset + dlen > length { break; }
      var number, setting: byte := 0, 0;
      if dtype == DT_INTERFACE {
        number, setting := data[offset + 2], data[offset + 3];
      }
      var next := Move(alts, c, dtype, number, setting);
      MoveLooks(alts, c, dtype, number, setting, s[offset + 2], s[offset + 3]);
      PutAt(alts, data, length, offset, c);
      c := next;
      offset := offset + dlen;
    }
    if length + 2 <= data.Length {
      RewritePadded(alts, old(data[..]), length, 0, Cursor(|alts|, 0));
      PadCancels(data[..], Rewrite(alts, old(data[..]), length));
    }
  }

  lemma PadCancels(s: seq<byte>, t: seq<byte>)
    requires s + PAD == t + PAD
    ensures s == t
  {
    assert |s| == |t|;
    assert s == (s + PAD)[..|s|] && t == (t + PAD)[..|t|];
  }

  /** Only an interface descriptor's number and setting matter to the cursor. */
  lemma MoveLooks(alts: seq<Alt>, c: Cursor, dtype: byte, n1: byte, s1: byte, n2: byte, s2: byte)
    requires dtype == DT_INTERFACE ==> n1 == n2 && s1 == s2
    ensures Move(alts, c, dtype, n1, s1) == Move(alts, c, dtype, n2, s2)
  {
  }

  // ------------------------------------------------------------ behind the descriptor

  /** The address that the walk puts right behind the descriptor, if any: that of an endpoint
      whose descriptor is the last two bytes. */
  function PutBehind(alts: seq<Alt>, s: seq<byte>, length: nat, offset: nat, c: Cursor): Option<byte>
    requires length + 2 <= |s|
    decreases length - offset
  {
    if !WholeAt(s, length, offset) then None
    else if s[offset + 1] == DT_ENDPOINT && HasEndpoint(alts, c) && offset + 2 == length then
      Some(alts[c.alt].endpoints[c.endpoint].address)
    else
      PutBehind(alts, PutOne(s, length, offset, alts, c), length, offset + s[offset],
                Move(alts, c, s[offset + 1], s[offset + 2], s[offset + 3]))
  }

  lemma PutOneInside(s: seq<byte>, length: nat, offset: nat, alts: seq<Alt>, c: Cursor, i: nat)
    requires offset + 2 <= length <= i < |s| && length + 2 <= |s|
    ensures PutOne(s, length, offset, alts, c)[i]
            == if i == length == offset + 2 && s[offset + 1] == DT_ENDPOINT && HasEndpoint(alts, c)
               then alts[c.alt].endpoints[c.endpoint].address else s[i]
  {
    hide HeaderAlt;
  }

  lemma {:induction false} WalkBehind(alts: seq<Alt>, s: seq<byte>, length: nat, offset: nat, c: Cursor, i: nat)
    requires length + 2 <= |s| && length <= i < |s|
    ensures RewriteFrom(alts, s, length, offset, c)[i]
            == if i == length then PutBehind(alts, s, length, offset, c).GetOr(s[i]) else s[i]
    decreases length - offset
  {
    hide PutOne;
    hide Move;
    if WholeAt(s, length, offset) {
      PutOneInside(s, length, offset, alts, c, i);
      WalkBehind(alts, PutOne(s, length, offset, alts, c), length, offset + s[offset],
                 Move(alts, c, s[offset + 1], s[offset + 2], s[offset + 3]), i);
    }
  }

  /** Of the bytes behind the descriptor only the first can change, and it does exactly when
      the walk ends on a two-byte endpoint descriptor with another address. */
  lemma BehindTheDescriptor(alts: seq<Alt>, s: seq<byte>, length: nat, i: nat)
    requires length + 2 <= |s| && length <= i < |s|
    ensures var behind := PutBehind(alts, s, length, 0, Cursor(|alts|, 0));
            Rewrite(alts, s, length)[i] != s[i] <==> i == length && behind.Some? && behind.value != s[i]
  {
    hide RewriteFrom;
    hide PutBehind;
    WalkBehind(alts, s, length, 0, Cursor(|alts|, 0), i);
  }

  predicate WritesBehind(alts: seq<Alt>, s: seq<byte>, length: nat) {
    length + 2 <= |s| && Rewrite(alts, s, length)[length] != s[length]
  }

  /** An interface descriptor of four bytes, then an endpoint descriptor cut to two. */
  lemma CutEndpointWritesBehind()
    ensures exists alts, s, length :: WritesBehind(alts, s, length)
  {
    hide Rewrite;
    var alts := [Alt(0, 0, 3, 0, [Endpoint(0x81, 0x82, 3, 8, 1, 0)])];
    var s: seq<byte> := [4, DT_INTERFACE, 0, 0, 2, DT_ENDPOINT, 0, 0];
    var c := Cursor(1, 0);
    assert FindAlt(alts, 0, 0, 0) == 0;
    assert Move(alts, c, DT_INTERFACE, 0, 0) == Cursor(0, 0);
    assert PutOne(s, 6, 0, alts, c) == s;
    assert PutBehind(alts, s, 6, 4, Cursor(0, 0)) == Some(0x82);
    assert PutBehind(alts, s, 6, 0, c) == Some(0x82);
    BehindTheDescriptor(alts, s, 6, 6);
    assert WritesBehind(alts, s, 6);
  }
}
