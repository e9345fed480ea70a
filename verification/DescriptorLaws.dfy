/** The in-place rewrite seen descriptor by descriptor, and its agreement with the remap:
    rewriting what the device sent gives what the remapped configuration would print. */
module DescriptorLaws {
  import opened Bytes
  import opened EndpointRemap
  import opened DescriptorRewrite
  import RemapLaws

  /** One descriptor with its two header bytes. */
  type Desc = seq<byte>

  function Flatten(ds: seq<Desc>): seq<byte>
    decreases |ds|
  {
    if ds == [] then [] else ds[0] + Flatten(ds[1..])
  }

  predicate NoStreaming(alts: seq<Alt>) {
    forall a <- alts :: !(a.class_ == CLASS_VIDEO && a.subclass == SC_VIDEOSTREAMING)
  }

  /** Long enough for what its type promises; a video input header holds its address. */
  predicate WellFormed(alts: seq<Alt>, d: Desc) {
    && |d| >= 2 && d[0] == |d|
    && (d[1] == DT_INTERFACE ==> |d| >= 4)
    && (d[1] == DT_ENDPOINT ==> |d| >= 7)
    && (d[1] == DT_CS_INTERFACE ==> |d| >= 3 && (d[2] == VS_INPUT_HEADER ==> |d| >= 7 || NoStreaming(alts)))
  }

  predicate AllWellFormed(alts: seq<Alt>, ds: seq<Desc>) {
    forall i :: 0 <= i < |ds| ==> WellFormed(alts, ds[i])
  }

  predicate Announces(alts: seq<Alt>, d: Desc, c: Cursor)
    requires |d| >= 2
  {
    && d[1] == DT_CS_INTERFACE && |d| >= 7 && Current(alts, c)
    && alts[c.alt].class_ == CLASS_VIDEO && alts[c.alt].subclass == SC_VIDEOSTREAMING
    && d[2] == VS_INPUT_HEADER && HeaderAlt(alts, c) < |alts|
  }

  /** One descriptor as the host is to see it. */
  function PutDesc(alts: seq<Alt>, d: Desc, c: Cursor): (r: Desc)
    requires WellFormed(alts, d)
    ensures |r| == |d| && r[0] == d[0] && r[1] == d[1]
    ensures WellFormed(alts, r)
  {
    if d[1] == DT_ENDPOINT && HasEndpoint(alts, c) then
      var ep := alts[c.alt].endpoints[c.endpoint];
      d[2 := ep.address][4 := ep.maxPacket % 256][5 := ep.maxPacket / 256][6 := ep.interval]
    else if Announces(alts, d, c) then
      d[6 := alts[HeaderAlt(alts, c)].endpoints[0].address]
    else d
  }

  function MoveOver(alts: seq<Alt>, d: Desc, c: Cursor): Cursor
    requires WellFormed(alts, d)
  {
    if d[1] == DT_INTERFACE then Move(alts, c, d[1], d[2], d[3]) else Move(alts, c, d[1], 0, 0)
  }

  function PutAll(alts: seq<Alt>, ds: seq<Desc>, c: Cursor): (r: seq<Desc>)
    requires AllWellFormed(alts, ds)
    ensures |r| == |ds| && AllWellFormed(alts, r)
    decreases |ds|
  {
    if ds == [] then [] else [PutDesc(alts, ds[0], c)] + PutAll(alts, ds[1..], MoveOver(alts, ds[0], c))
  }

  function MoveAll(alts: seq<Alt>, ds: seq<Desc>, c: Cursor): Cursor
    requires AllWellFormed(alts, ds)
    decreases |ds|
  {
    if ds == [] then c else MoveAll(alts, ds[1..], MoveOver(alts, ds[0], c))
  }

  /** At a descriptor inside the buffer the loop writes that descriptor and nothing else. */
  lemma PutOneIsPutDesc(alts: seq<Alt>, pre: seq<byte>, d: Desc, rest: seq<byte>, length: nat, c: Cursor)
    requires WellFormed(alts, d) && |pre| + |d| <= length && length + 2 <= |pre| + |d| + |rest|
    ensures PutOne(pre + d + rest, length, |pre|, alts, c) == pre + PutDesc(alts, d, c) + rest
    ensures (pre + d + rest)[|pre|] == d[0]
    ensures var s := pre + d + rest; Move(alts, c, s[|pre| + 1], s[|pre| + 2], s[|pre| + 3]) == MoveOver(alts, d, c)
  {
    hide FindAlt;
    hide HeaderAlt;
    var s := pre + d + rest;
    assert forall i :: 0 <= i < |d| ==> s[|pre| + i] == d[i];
  }

  lemma {:induction false} RewriteFromIsPutAll(alts: seq<Alt>, pre: seq<byte>, ds: seq<Desc>, tail: seq<byte>, c: Cursor)
    requires AllWellFormed(alts, ds) && |tail| >= 2
    ensures RewriteFrom(alts, pre + Flatten(ds) + tail, |pre| + |Flatten(ds)|, |pre|, c)
            == pre + Flatten(PutAll(alts, ds, c)) + tail
    decreases |ds|
  {
    hide PutOne;
    hide PutDesc;
    hide MoveOver;
    hide Move;
    var s, length := pre + Flatten(ds) + tail, |pre| + |Flatten(ds)|;
    if ds == [] {
      assert PutAll(alts, ds, c) == [];
    } else {
      var d, rest := ds[0], Flatten(ds[1..]) + tail;
      assert WellFormed(alts, d);
      assert s == pre + d + rest;
      PutOneIsPutDesc(alts, pre, d, rest, length, c);
      var put, next := PutDesc(alts, d, c), MoveOver(alts, d, c);
      assert pre + put + rest == (pre + put) + Flatten(ds[1..]) + tail;
      RewriteFromIsPutAll(alts, pre + put, ds[1..], tail, next);
      assert PutAll(alts, ds, c) == [put] + PutAll(alts, ds[1..], next);
      FlattenCons(put, PutAll(alts, ds[1..], next));
      assert pre + Flatten(PutAll(alts, ds, c)) + tail == (pre + put) + Flatten(PutAll(alts, ds[1..], next)) + tail;
    }
  }

  lemma FlattenCons(d: Desc, ds: seq<Desc>)
    ensures Flatten([d] + ds) == d + Flatten(ds)
  {
    assert ([d] + ds)[1..] == ds;
  }

  lemma {:induction false} WalkContained(alts: seq<Alt>, pre: seq<byte>, ds: seq<Desc>, tail: seq<byte>, c: Cursor)
    requires AllWellFormed(alts, ds) && |tail| >= 2
    ensures var length := |pre| + |Flatten(ds)|;
            Contained(alts, pre + Flatten(ds) + tail, length, |pre|, c, length)
    decreases |ds|
  {
    hide PutOne;
    hide PutDesc;
    hide Move;
    hide MoveOver;
    var s, length := pre + Flatten(ds) + tail, |pre| + |Flatten(ds)|;
    if ds != [] {
      var d, rest := ds[0], Flatten(ds[1..]) + tail;
      assert WellFormed(alts, d);
      assert s == pre + d + rest;
      PutOneIsPutDesc(alts, pre, d, rest, length, c);
      assert s[|pre| + 1] == d[1];
      var put, next := PutDesc(alts, d, c), MoveOver(alts, d, c);
      assert pre + put + rest == (pre + put) + Flatten(ds[1..]) + tail;
      WalkContained(alts, pre + put, ds[1..], tail, next);
    }
  }

  /** The walk over a well-formed descriptor stays inside it, so it may fill the buffer. */
  lemma WellFormedIsContained(alts: seq<Alt>, ds: seq<Desc>)
    requires AllWellFormed(alts, ds)
    ensures Contained(alts, Flatten(ds) + PAD, |Flatten(ds)|, 0, Cursor(|alts|, 0), |Flatten(ds)|)
  {
    hide Contained;
    hide Flatten;
    hide AllWellFormed;
    var none: seq<byte>, flat := [], Flatten(ds);
    WalkContained(alts, none, ds, PAD, Cursor(|alts|, 0));
    assert none + flat == flat;
  }

  /** On a well-formed descriptor the byte walk is a map over whole descriptors: it writes
      only inside them, keeps every boundary and every type, and leaves the bytes after the
      descriptor alone. */
  lemma RewriteIsPerDescriptor(alts: seq<Alt>, ds: seq<Desc>, tail: seq<byte>)
    requires AllWellFormed(alts, ds) && |tail| >= 2
    ensures Rewrite(alts, Flatten(ds) + tail, |Flatten(ds)|)
            == Flatten(PutAll(alts, ds, Cursor(|alts|, 0))) + tail
  {
    hide RewriteFrom;
    hide PutAll;
    hide Flatten;
    hide AllWellFormed;
    var c := Cursor(|alts|, 0);
    var none: seq<byte>, flat, put := [], Flatten(ds), Flatten(PutAll(alts, ds, c));
    RewriteFromIsPutAll(alts, none, ds, tail, c);
    assert none + flat == flat;
    assert none + put == put;
  }

  /** Of each descriptor only the address, packet size and interval of an endpoint, or the
      endpoint address of a video input header, may differ. */
  lemma {:induction false} OnlyEndpointBytesChange(alts: seq<Alt>, ds: seq<Desc>, c: Cursor, i: nat, k: nat)
    requires AllWellFormed(alts, ds) && i < |ds| && k < |ds[i]|
    ensures var r := PutAll(alts, ds, c);
            && |r[i]| == |ds[i]|
            && (r[i][k] != ds[i][k] ==>
                  || (ds[i][1] == DT_ENDPOINT && k in {2, 4, 5, 6})
                  || (ds[i][1] == DT_CS_INTERFACE && ds[i][2] == VS_INPUT_HEADER && k == 6))
    decreases |ds|
  {
    hide HeaderAlt;
    hide MoveOver;
    if i > 0 {
      OnlyEndpointBytesChange(alts, ds[1..], MoveOver(alts, ds[0], c), i - 1, k);
    }
  }

  lemma PutDescTwice(alts: seq<Alt>, d: Desc, c: Cursor)
    requires WellFormed(alts, d)
    ensures PutDesc(alts, PutDesc(alts, d, c), c) == PutDesc(alts, d, c)
    ensures MoveOver(alts, PutDesc(alts, d, c), c) == MoveOver(alts, d, c)
  {
    hide FindAlt;
    hide HeaderAlt;
    var r := PutDesc(alts, d, c);
    assert PutDesc(alts, r, c) == r;
  }

  lemma {:induction false} PutAllTwice(alts: seq<Alt>, ds: seq<Desc>, c: Cursor)
    requires AllWellFormed(alts, ds)
    ensures PutAll(alts, PutAll(alts, ds, c), c) == PutAll(alts, ds, c)
    decreases |ds|
  {
    hide PutDesc;
    hide MoveOver;
    if ds != [] {
      var r, next := PutAll(alts, ds, c), MoveOver(alts, ds[0], c);
      PutDescTwice(alts, ds[0], c);
      assert r[1..] == PutAll(alts, ds[1..], next);
      PutAllTwice(alts, ds[1..], next);
    }
  }

  /** Rewriting a descriptor that was already rewritten changes nothing. */
  lemma RewriteIsIdempotent(alts: seq<Alt>, ds: seq<Desc>, tail: seq<byte>)
    requires AllWellFormed(alts, ds) && |tail| >= 2
    ensures var s, n := Flatten(ds) + tail, |Flatten(ds)|;
            Rewrite(alts, Rewrite(alts, s, n), n) == Rewrite(alts, s, n)
  {
    hide PutAll;
    hide Rewrite;
    var c := Cursor(|alts|, 0);
    var r := PutAll(alts, ds, c);
    RewriteIsPerDescriptor(alts, ds, tail);
    PutAllTwice(alts, ds, c);
    assert |Flatten(r)| == |Flatten(ds)| by {
      assert |Rewrite(alts, Flatten(ds) + tail, |Flatten(ds)|)| == |Flatten(ds) + tail|;
    }
    RewriteIsPerDescriptor(alts, r, tail);
  }

  /** The endpoint a video input header is to announce: the first of the altsetting in force,
      or else the first of the first altsetting of that interface that has any; none when the
      interface has no endpoints at all. */
  lemma HeaderExactly(alts: seq<Alt>, c: Cursor)
    requires Current(alts, c)
    ensures var r, here := HeaderAlt(alts, c), alts[c.alt];
            && (here.endpoints != [] ==> r == c.alt)
            && (here.endpoints == [] && r < |alts| ==>
                  && alts[r].number == here.number && alts[r].endpoints != []
                  && forall i :: 0 <= i < r && alts[i].number == here.number ==> alts[i].endpoints == [])
            && (r >= |alts| <==> forall i :: 0 <= i < |alts| && alts[i].number == here.number ==> alts[i].endpoints == [])
  {
  }

  /** What one descriptor becomes, by its type: 5 is an endpoint, 0x24 a class-specific
      interface descriptor, of which subtype 1 beside class 14, subclass 2 is the input header
      of a video stream. Everything else passes unchanged. */
  lemma PutDescExactly(alts: seq<Alt>, d: Desc, c: Cursor)
    requires WellFormed(alts, d)
    ensures var r := PutDesc(alts, d, c);
            if d[1] == 5 then
              if c.alt < |alts| && c.endpoint < |alts[c.alt].endpoints| then
                var ep := alts[c.alt].endpoints[c.endpoint];
                r == d[..2] + [ep.address, d[3]] + [ep.maxPacket % 256, ep.maxPacket / 256, ep.interval] + d[7..]
              else r == d
            else if d[1] == 0x24 && d[2] == 1 && c.alt < |alts| && alts[c.alt].class_ == 14 && alts[c.alt].subclass == 2
                 && HeaderAlt(alts, c) < |alts| then
              |d| >= 7 ==> r == d[..6] + [alts[HeaderAlt(alts, c)].endpoints[0].address] + d[7..]
            else r == d
  {
    hide HeaderAlt;
  }
}
