/** Serialising a configuration, and the law that ties the remap to the rewrite. */
module RewriteCommutes {
  import opened Bytes
  import opened EndpointRemap
  import opened DescriptorRewrite
  import opened DescriptorLaws
  import RemapLaws

  /** One altsetting with all that its part of the descriptor holds: what follows the
      interface descriptor, and per endpoint its further bytes and what follows it. */
  datatype Block = Block(alt: Alt, protocol: byte, text: byte, before: seq<Desc>,
                         extra: seq<seq<byte>>, after: seq<seq<Desc>>)

  /** Class-specific descriptors, association descriptors and the like; beside a video
      streaming altsetting, none that reads as an input header. */
  predicate Quiet(alts: seq<Alt>, d: Desc) {
    && |d| >= 2 && d[0] == |d| && d[1] != DT_INTERFACE && d[1] != DT_ENDPOINT
    && (d[1] == DT_CS_INTERFACE ==> |d| >= 3 && (d[2] != VS_INPUT_HEADER || NoStreaming(alts)))
  }

  predicate AllQuiet(alts: seq<Alt>, ds: seq<Desc>) {
    forall i :: 0 <= i < |ds| ==> Quiet(alts, ds[i])
  }

  predicate Sound(b: Block) {
    && |b.alt.endpoints| < 256 && |b.extra| == |b.alt.endpoints| == |b.after|
    && (forall k :: 0 <= k < |b.extra| ==> |b.extra[k]| < 249)
  }

  predicate Calm(alts: seq<Alt>, b: Block) {
    && AllQuiet(alts, b.before)
    && (forall k :: 0 <= k < |b.after| ==> AllQuiet(alts, b.after[k]))
  }

  predicate AllCalm(alts: seq<Alt>, bs: seq<Block>) {
    forall j :: 0 <= j < |bs| ==> Calm(alts, bs[j])
  }

  predicate AllSound(bs: seq<Block>) {
    forall j :: 0 <= j < |bs| ==> Sound(bs[j])
  }

  function EndpointDesc(ep: Endpoint, extra: seq<byte>): (d: Desc)
    requires |extra| < 249
    ensures |d| == 7 + |extra|
  {
    [7 + |extra|, 5, ep.address, ep.attributes, ep.maxPacket % 256, ep.maxPacket / 256, ep.interval] + extra
  }

  function InterfaceDesc(b: Block): Desc
    requires Sound(b)
  {
    [9, 4, b.alt.number, b.alt.setting, |b.alt.endpoints|, b.alt.class_, b.alt.subclass, b.protocol, b.text]
  }

  /** The descriptors of the endpoints of b from the k-th on. */
  function EndpointsFrom(b: Block, k: nat): seq<Desc>
    requires Sound(b) && k <= |b.alt.endpoints|
    decreases |b.alt.endpoints| - k
  {
    if k == |b.alt.endpoints| then []
    else ([EndpointDesc(b.alt.endpoints[k], b.extra[k])] + b.after[k]) + EndpointsFrom(b, k + 1)
  }

  function BlockDescs(b: Block): seq<Desc>
    requires Sound(b)
  {
    ([InterfaceDesc(b)] + b.before) + EndpointsFrom(b, 0)
  }

  function BlocksFrom(bs: seq<Block>, j: nat): seq<Desc>
    requires AllSound(bs) && j <= |bs|
    decreases |bs| - j
  {
    if j == |bs| then [] else BlockDescs(bs[j]) + BlocksFrom(bs, j + 1)
  }

  /** The configuration descriptor and everything it announces, in bytes. */
  function Serialize(header: seq<Desc>, bs: seq<Block>): seq<byte>
    requires AllSound(bs)
  {
    Flatten(header + BlocksFrom(bs, 0))
  }

  function Alts(bs: seq<Block>): seq<Alt> {
    seq(|bs|, j requires 0 <= j < |bs| => bs[j].alt)
  }

  /** now describes the same altsetting as was; only address, packet size, interval and the
      noted limit of its endpoints may differ. */
  predicate SameShape(was: Alt, now: Alt) {
    && now == was.(endpoints := now.endpoints)
    && |now.endpoints| == |was.endpoints|
    && forall k :: 0 <= k < |was.endpoints| ==> now.endpoints[k].attributes == was.endpoints[k].attributes
  }

  predicate AllSameShape(was: seq<Alt>, now: seq<Alt>) {
    |was| == |now| && forall j :: 0 <= j < |was| ==> SameShape(was[j], now[j])
  }

  function Replace(bs: seq<Block>, alts: seq<Alt>): (r: seq<Block>)
    requires AllSound(bs) && AllSameShape(Alts(bs), alts)
    ensures |r| == |bs| && AllSound(r)
  {
    seq(|bs|, j requires 0 <= j < |bs| => assert SameShape(Alts(bs)[j], alts[j]); bs[j].(alt := alts[j]))
  }

  /** No two altsettings share interface number and setting. */
  predicate UniqueAlts(alts: seq<Alt>) {
    forall i, j :: 0 <= i < j < |alts| ==> alts[i].number != alts[j].number || alts[i].setting != alts[j].setting
  }

  // ------------------------------------------------------------ the walk over the parts

  lemma {:induction false} PutAppend(alts: seq<Alt>, a: seq<Desc>, b: seq<Desc>, c: Cursor)
    requires AllWellFormed(alts, a) && AllWellFormed(alts, b)
    ensures PutAll(alts, a + b, c) == PutAll(alts, a, c) + PutAll(alts, b, MoveAll(alts, a, c))
    ensures MoveAll(alts, a + b, c) == MoveAll(alts, b, MoveAll(alts, a, c))
    decreases |a|
  {
    hide PutDesc;
    hide MoveOver;
    hide WellFormed;
    if a == [] {
      assert a + b == b;
      assert PutAll(alts, a, c) == [];
    } else {
      assert (a + b)[1..] == a[1..] + b;
      PutAppend(alts, a[1..], b, MoveOver(alts, a[0], c));
    }
  }

  lemma {:induction false} QuietStays(alts: seq<Alt>, ds: seq<Desc>, c: Cursor)
    requires AllQuiet(alts, ds)
    ensures AllWellFormed(alts, ds) && PutAll(alts, ds, c) == ds && MoveAll(alts, ds, c) == c
    decreases |ds|
  {
    hide FindAlt;
    hide HeaderAlt;
    if ds != [] {
      assert Quiet(alts, ds[0]);
      QuietUntouched(alts, ds[0], c);
      QuietStays(alts, ds[1..], c);
    }
  }

  lemma QuietUntouched(alts: seq<Alt>, d: Desc, c: Cursor)
    requires Quiet(alts, d)
    ensures WellFormed(alts, d) && PutDesc(alts, d, c) == d && MoveOver(alts, d, c) == c
  {
    hide FindAlt;
    hide HeaderAlt;
    assert Current(alts, c) ==> alts[c.alt] in alts;
  }

  /** An endpoint descriptor of the device becomes the one of the host. */
  lemma EndpointDescPut(alts: seq<Alt>, c: Cursor, was: Endpoint, extra: seq<byte>)
    requires HasEndpoint(alts, c) && |extra| < 249
    requires was.attributes == alts[c.alt].endpoints[c.endpoint].attributes
    ensures var d, now := EndpointDesc(was, extra), alts[c.alt].endpoints[c.endpoint];
            && WellFormed(alts, d)
            && PutDesc(alts, d, c) == EndpointDesc(now, extra)
            && MoveOver(alts, d, c) == c.(endpoint := c.endpoint + 1)
  {
    hide HeaderAlt;
    hide FindAlt;
    hide NoStreaming;
    var d, now := EndpointDesc(was, extra), alts[c.alt].endpoints[c.endpoint];
    var r := PutDesc(alts, d, c);
    assert r[3] == d[3] == was.attributes;
    assert r[..7] == EndpointDesc(now, extra)[..7];
    assert r[7..] == extra == EndpointDesc(now, extra)[7..];
    assert r == r[..7] + r[7..];
    assert EndpointDesc(now, extra) == EndpointDesc(now, extra)[..7] + EndpointDesc(now, extra)[7..];
  }

  lemma SingleWalk(alts: seq<Alt>, d: Desc, rest: seq<Desc>, c: Cursor)
    requires WellFormed(alts, d) && AllQuiet(alts, rest)
    ensures AllWellFormed(alts, [d] + rest)
    ensures PutAll(alts, [d] + rest, c) == [PutDesc(alts, d, c)] + rest
    ensures MoveAll(alts, [d] + rest, c) == MoveOver(alts, d, c)
  {
    hide PutDesc;
    hide MoveOver;
    hide WellFormed;
    hide Quiet;
    assert ([d] + rest)[1..] == rest;
    QuietStays(alts, rest, MoveOver(alts, d, c));
    QuietStays(alts, rest, c);
  }

  lemma {:induction false} EndpointsPut(alts: seq<Alt>, j: nat, b: Block, k: nat)
    requires j < |alts| && Sound(b) && Calm(alts, b) && SameShape(b.alt, alts[j]) && k <= |b.alt.endpoints|
    ensures AllWellFormed(alts, EndpointsFrom(b, k))
    ensures PutAll(alts, EndpointsFrom(b, k), Cursor(j, k)) == EndpointsFrom(b.(alt := alts[j]), k)
    decreases |b.alt.endpoints| - k
  {
    hide PutDesc;
    hide MoveOver;
    hide EndpointDesc;
    hide WellFormed;
    hide Quiet;
    if k < |b.alt.endpoints| {
      var d := EndpointDesc(b.alt.endpoints[k], b.extra[k]);
      var c := Cursor(j, k);
      EndpointDescPut(alts, c, b.alt.endpoints[k], b.extra[k]);
      SingleWalk(alts, d, b.after[k], c);
      EndpointsPut(alts, j, b, k + 1);
      PutAppend(alts, [d] + b.after[k], EndpointsFrom(b, k + 1), c);
    }
  }

  lemma InterfacePut(alts: seq<Alt>, j: nat, b: Block, c: Cursor)
    requires j < |alts| && Sound(b) && SameShape(b.alt, alts[j]) && UniqueAlts(alts)
    ensures var d := InterfaceDesc(b);
            && WellFormed(alts, d) && PutDesc(alts, d, c) == d == InterfaceDesc(b.(alt := alts[j]))
            && MoveOver(alts, d, c) == Cursor(j, 0)
  {
    hide HeaderAlt;
    hide NoStreaming;
    var r := FindAlt(alts, b.alt.number, b.alt.setting, 0);
    assert r <= j;
  }

  lemma BlockPut(alts: seq<Alt>, j: nat, b: Block, c: Cursor)
    requires j < |alts| && Sound(b) && Calm(alts, b) && SameShape(b.alt, alts[j]) && UniqueAlts(alts)
    ensures AllWellFormed(alts, BlockDescs(b))
    ensures PutAll(alts, BlockDescs(b), c) == BlockDescs(b.(alt := alts[j]))
  {
    hide PutDesc;
    hide MoveOver;
    hide InterfaceDesc;
    hide WellFormed;
    hide Quiet;
    hide EndpointsFrom;
    InterfacePut(alts, j, b, c);
    SingleWalk(alts, InterfaceDesc(b), b.before, c);
    EndpointsPut(alts, j, b, 0);
    PutAppend(alts, [InterfaceDesc(b)] + b.before, EndpointsFrom(b, 0), c);
  }

  lemma {:induction false} BlocksPut(alts: seq<Alt>, bs: seq<Block>, j: nat, c: Cursor)
    requires AllSound(bs) && AllCalm(alts, bs) && AllSameShape(Alts(bs), alts) && UniqueAlts(alts) && j <= |bs|
    ensures AllWellFormed(alts, BlocksFrom(bs, j))
    ensures PutAll(alts, BlocksFrom(bs, j), c) == BlocksFrom(Replace(bs, alts), j)
    decreases |bs| - j
  {
    hide BlockDescs;
    hide Sound;
    hide WellFormed;
    hide UniqueAlts;
    hide MoveAll;
    if j < |bs| {
      assert SameShape(Alts(bs)[j], alts[j]);
      BlockPut(alts, j, bs[j], c);
      BlocksPut(alts, bs, j + 1, MoveAll(alts, BlockDescs(bs[j]), c));
      PutAppend(alts, BlockDescs(bs[j]), BlocksFrom(bs, j + 1), c);
    }
  }

  // ------------------------------------------------------------ main results

  /** Rewriting the bytes of a configuration gives the bytes of the configuration with its
      altsettings replaced, whatever follows them in the buffer. */
  lemma RewriteSerializes(header: seq<Desc>, bs: seq<Block>, alts: seq<Alt>, tail: seq<byte>)
    requires AllQuiet(alts, header) && AllSound(bs) && AllCalm(alts, bs)
    requires AllSameShape(Alts(bs), alts) && UniqueAlts(alts) && |tail| >= 2
    ensures Rewrite(alts, Serialize(header, bs) + tail, |Serialize(header, bs)|)
            == Serialize(header, Replace(bs, alts)) + tail
  {
    hide PutDesc;
    hide MoveOver;
    hide WellFormed;
    hide BlocksFrom;
    hide UniqueAlts;
    hide Quiet;
    hide Rewrite;
    hide Flatten;
    var c := Cursor(|alts|, 0);
    QuietStays(alts, header, c);
    BlocksPut(alts, bs, 0, c);
    PutAppend(alts, header, BlocksFrom(bs, 0), c);
    RewriteIsPerDescriptor(alts, header + BlocksFrom(bs, 0), tail);
  }

  lemma ClampKeepsAttributes(c: Candidate, ep: Endpoint)
    ensures Assigned(c, ep).attributes == ep.attributes
  {
  }

  lemma RemapKeepsShape(cands: seq<Candidate>, alts: seq<Alt>)
    requires RemapLaws.Fresh(alts) && Remap(cands, alts).Done?
    ensures AllSameShape(alts, Remap(cands, alts).value)
  {
    hide Remap;
    hide Assigned;
    RemapLaws.RemapServes(cands, alts);
    var r := Remap(cands, alts);
    forall j | 0 <= j < |alts| ensures SameShape(alts[j], r.value[j]) {
      assert RemapLaws.AllServed(cands, r.book.chosen, alts[j].endpoints, r.value[j].endpoints);
      forall k | 0 <= k < |alts[j].endpoints|
        ensures r.value[j].endpoints[k].attributes == alts[j].endpoints[k].attributes
      {
        assert RemapLaws.ServedBy(cands, r.book.chosen, alts[j].endpoints[k], r.value[j].endpoints[k]);
        ClampKeepsAttributes(cands[r.book.chosen[alts[j].endpoints[k].device]], alts[j].endpoints[k]);
      }
    }
  }

  lemma StillCalm(alts: seq<Alt>, now: seq<Alt>, header: seq<Desc>, bs: seq<Block>)
    requires AllQuiet(alts, header) && AllCalm(alts, bs) && (NoStreaming(alts) ==> NoStreaming(now))
    ensures AllQuiet(now, header) && AllCalm(now, bs)
  {
    hide NoStreaming;
  }

  /** Rewriting commutes with remapping. setup is the configuration as prepared from the
      device's, intervals converted; the bytes the device sends, rewritten, are the bytes of
      the remapped configuration. */
  lemma RewriteCommutesWithRemap(cands: seq<Candidate>, header: seq<Desc>, bs: seq<Block>, setup: seq<Alt>, tail: seq<byte>)
    requires AllQuiet(setup, header) && AllSound(bs) && AllCalm(setup, bs)
    requires AllSameShape(Alts(bs), setup) && UniqueAlts(setup) && |tail| >= 2
    requires RemapLaws.Fresh(setup) && Remap(cands, setup).Done?
    ensures var now := Remap(cands, setup).value;
            && AllSameShape(Alts(bs), now)
            && Rewrite(now, Serialize(header, bs) + tail, |Serialize(header, bs)|) == Serialize(header, Replace(bs, now)) + tail
  {
    hide Remap;
    hide Rewrite;
    hide Serialize;
    hide Quiet;
    hide Sound;
    hide Calm;
    RemapKeepsShape(cands, setup);
    var now := Remap(cands, setup).value;
    forall j | 0 <= j < |bs| ensures SameShape(Alts(bs)[j], now[j]) {
      assert SameShape(Alts(bs)[j], setup[j]) && SameShape(setup[j], now[j]);
    }
    assert UniqueAlts(now) && (NoStreaming(setup) ==> NoStreaming(now)) by {
      assert forall j :: 0 <= j < |setup| ==> SameShape(setup[j], now[j]);
    }
    StillCalm(setup, now, header, bs);
    RewriteSerializes(header, bs, now, tail);
  }
}
