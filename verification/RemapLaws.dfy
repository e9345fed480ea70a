/** What the first-fit remap guarantees: one candidate per device address, host addresses
    that identify the device's, a working inverse lookup, and when it can fail. */
module RemapLaws {
  import opened Bytes
  import opened EndpointRemap

  /** As setup leaves it: the host descriptor still carries the device's address. */
  predicate Fresh(alts: seq<Alt>) {
    forall j, k :: 0 <= j < |alts| && 0 <= k < |alts[j].endpoints|
      ==> alts[j].endpoints[k].address == alts[j].endpoints[k].device
  }

  /** The candidate can do some transfer type that the remap looks for. */
  predicate Usable(c: Candidate) {
    c.iso || c.bulk || c.intr
  }

  predicate Carries(c: Candidate, device: byte) {
    Usable(c) && if device >= DIR_IN then c.dirIn else c.dirOut
  }

  predicate Injective(chosen: map<byte, nat>) {
    forall d, e :: d in chosen && e in chosen && chosen[d] == chosen[e] ==> d == e
  }

  predicate Extends(small: map<byte, nat>, big: map<byte, nat>) {
    forall d :: d in small ==> d in big && big[d] == small[d]
  }

  /** now is was, served by the candidate of its device address. */
  predicate ServedBy(cands: seq<Candidate>, chosen: map<byte, nat>, was: Endpoint, now: Endpoint) {
    && was.device in chosen && chosen[was.device] < |cands|
    && now == Assigned(cands[chosen[was.device]], was)
  }

  predicate AllServed(cands: seq<Candidate>, chosen: map<byte, nat>, was: seq<Endpoint>, now: seq<Endpoint>) {
    && |was| == |now|
    && forall k :: 0 <= k < |was| ==> ServedBy(cands, chosen, was[k], now[k])
  }

  predicate Served(cands: seq<Candidate>, chosen: map<byte, nat>, was: seq<Alt>, now: seq<Alt>) {
    && |was| == |now|
    && forall j :: 0 <= j < |was| ==>
         now[j] == was[j].(endpoints := now[j].endpoints)
         && AllServed(cands, chosen, was[j].endpoints, now[j].endpoints)
  }

  /** Beyond BookFits: no candidate serves two device addresses, and each carries the
      direction of its own. */
  predicate BookInv(cands: seq<Candidate>, b: Book)
    requires BookFits(cands, b)
  {
    && Injective(b.chosen)
    && forall d :: d in b.chosen ==> Carries(cands[b.chosen[d]], d)
  }

  lemma EndpointStep(cands: seq<Candidate>, b: Book, ep: Endpoint)
    requires BookFits(cands, b) && BookInv(cands, b) && ep.address == ep.device && RemapEndpoint(cands, b, ep).Done?
    ensures var r := RemapEndpoint(cands, b, ep);
            && BookInv(cands, r.book) && Extends(b.chosen, r.book.chosen)
            && ServedBy(cands, r.book.chosen, ep, r.value)
  {
    hide Assigned;
    var r := RemapEndpoint(cands, b, ep);
    if ep.device !in b.chosen {
      var i := FirstFrom(cands, b.used, ep, 0);
      forall d | d in b.chosen ensures b.chosen[d] != i {
        assert b.used[b.chosen[d]];
      }
    }
  }

  lemma {:induction false} EndpointsStep(cands: seq<Candidate>, b: Book, eps: seq<Endpoint>)
    requires BookFits(cands, b) && BookInv(cands, b)
    requires forall k :: 0 <= k < |eps| ==> eps[k].address == eps[k].device
    requires RemapEndpoints(cands, b, eps).Done?
    ensures var r := RemapEndpoints(cands, b, eps);
            && BookInv(cands, r.book) && Extends(b.chosen, r.book.chosen)
            && AllServed(cands, r.book.chosen, eps, r.value)
    decreases |eps|
  {
    hide RemapEndpoint;
    hide BookInv;
    hide Assigned;
    if eps != [] {
      var last := |eps| - 1;
      EndpointsStep(cands, b, eps[..last]);
      var f := RemapEndpoints(cands, b, eps[..last]);
      EndpointStep(cands, f.book, eps[last]);
    }
  }

  lemma {:induction false} AltsStep(cands: seq<Candidate>, b: Book, alts: seq<Alt>)
    requires BookFits(cands, b) && BookInv(cands, b) && Fresh(alts) && RemapAlts(cands, b, alts).Done?
    ensures var r := RemapAlts(cands, b, alts);
            && BookInv(cands, r.book) && Extends(b.chosen, r.book.chosen)
            && Served(cands, r.book.chosen, alts, r.value)
    decreases |alts|
  {
    hide RemapEndpoints;
    hide BookInv;
    hide AllServed;
    if alts != [] {
      var last := |alts| - 1;
      AltsStep(cands, b, alts[..last]);
      var f := RemapAlts(cands, b, alts[..last]);
      EndpointsStep(cands, f.book, alts[last].endpoints);
      var r := RemapAlts(cands, b, alts);
      forall j | 0 <= j < last
        ensures AllServed(cands, r.book.chosen, alts[j].endpoints, r.value[j].endpoints)
      {
        StaysServed(cands, f.book.chosen, r.book.chosen, alts[j].endpoints, f.value[j].endpoints);
      }
    }
  }

  lemma StaysServed(cands: seq<Candidate>, small: map<byte, nat>, big: map<byte, nat>, was: seq<Endpoint>, now: seq<Endpoint>)
    requires AllServed(cands, small, was, now) && Extends(small, big)
    ensures AllServed(cands, big, was, now)
  {
    hide Assigned;
  }

  /** A successful remap serves every device address by one candidate of its own, one that
      carries its direction, and changes nothing but the endpoints of the altsettings. */
  lemma RemapServes(cands: seq<Candidate>, alts: seq<Alt>)
    requires Fresh(alts) && Remap(cands, alts).Done?
    ensures var r := Remap(cands, alts);
            && Served(cands, r.book.chosen, alts, r.value) && Injective(r.book.chosen)
            && forall d :: d in r.book.chosen ==> r.book.chosen[d] < |cands| && Carries(cands[r.book.chosen[d]], d)
  {
    hide RemapAlts;
    hide Served;
    AltsStep(cands, Blank(cands), alts);
  }

  /** The host is never promised an isochronous packet the UDC cannot send: within a limit
      of at most 2047 the packet fits it and asks for no extra transactions, and a packet
      that already did is left alone; other transfer types keep theirs. */
  lemma IsochronousFits(c: Candidate, ep: Endpoint)
    ensures var now := Assigned(c, ep);
            && (ep.Type() == XFER_ISOC && 0 < c.limit < 0x800 ==>
                  now.MaxP() <= c.limit && !now.HighBandwidth()
                  && (now.maxPacket == ep.maxPacket <==>
                        (ep.MaxP() <= c.limit && !ep.HighBandwidth()) || ep.maxPacket == c.limit))
            && (ep.Type() != XFER_ISOC || c.limit == 0 ==> now.maxPacket == ep.maxPacket)
            && now.device == ep.device && now.attributes == ep.attributes && now.interval == ep.interval
            && now.limit == c.limit
  {
    hide HostAddress;
    var q := ep.maxPacket / 0x800;
    assert ep.maxPacket == 0x800 * q + ep.maxPacket % 0x800;
  }

  // ------------------------------------------------------------ host addresses identify

  predicate SharesDirection(c: Candidate, d: Candidate) {
    (c.dirIn && d.dirIn) || (c.dirOut && d.dirOut)
  }

  predicate Distinguished(c: Candidate, d: Candidate) {
    && (c.addr == ADDR_ANY <==> d.addr == ADDR_ANY)
    && (c.addr != ADDR_ANY ==> c.addr % DIR_IN != d.addr % DIR_IN)
  }

  /** Two usable candidates that carry one direction are both free to take any address, or
      both have fixed endpoint numbers, which differ. */
  predicate Unambiguous(cands: seq<Candidate>) {
    forall i, j :: 0 <= i < j < |cands| && Usable(cands[i]) && Usable(cands[j]) && SharesDirection(cands[i], cands[j])
      ==> Distinguished(cands[i], cands[j])
  }

  lemma HostAddressesDiffer(cands: seq<Candidate>, i: nat, j: nat, d: byte, e: byte)
    requires Unambiguous(cands) && i < |cands| && j < |cands| && i != j && d != e
    requires Carries(cands[i], d) && Carries(cands[j], e)
    ensures HostAddress(cands[i], d, d >= DIR_IN) != HostAddress(cands[j], e, e >= DIR_IN)
  {
    var lo, hi := if i < j then i else j, if i < j then j else i;
    assert SharesDirection(cands[lo], cands[hi]) || (d >= DIR_IN) != (e >= DIR_IN);
  }

  /** Host addresses identify device addresses: two endpoints anywhere in the remapped
      configuration share a host address exactly when they share a device address, and the
      direction bit is never changed. */
  lemma HostIdentifiesDevice(cands: seq<Candidate>, alts: seq<Alt>, j: nat, k: nat, l: nat, m: nat)
    requires Fresh(alts) && Unambiguous(cands) && Remap(cands, alts).Done?
    requires j < |alts| && k < |alts[j].endpoints| && l < |alts| && m < |alts[l].endpoints|
    ensures var now := Remap(cands, alts).value;
            && |now| == |alts| && |now[j].endpoints| == |alts[j].endpoints| && |now[l].endpoints| == |alts[l].endpoints|
            && var a, b := now[j].endpoints[k], now[l].endpoints[m];
               && a.device == alts[j].endpoints[k].device && b.device == alts[l].endpoints[m].device
               && (a.address == b.address <==> a.device == b.device)
               && (a.address >= DIR_IN <==> a.device >= DIR_IN)
  {
    hide Remap;
    RemapServes(cands, alts);
    var r := Remap(cands, alts);
    var a, b := alts[j].endpoints[k], alts[l].endpoints[m];
    assert ServedBy(cands, r.book.chosen, a, r.value[j].endpoints[k]);
    assert ServedBy(cands, r.book.chosen, b, r.value[l].endpoints[m]);
    if a.device != b.device {
      HostAddressesDiffer(cands, r.book.chosen[a.device], r.book.chosen[b.device], a.device, b.device);
    }
  }

  // ------------------------------------------------------------ the inverse lookup

  function FindDevice(eps: seq<Endpoint>, address: byte, k: nat): (r: nat)
    requires k <= |eps|
    ensures k <= r <= |eps| && (r < |eps| ==> eps[r].address == address)
    ensures forall i :: k <= i < r ==> eps[i].address != address
    decreases |eps| - k
  {
    if k == |eps| || eps[k].address == address then k else FindDevice(eps, address, k + 1)
  }

  /** remap_endpoint_for_device with remapping on: the device address of the first endpoint
      shown under the low byte of the request, or the request itself. */
  function DeviceAddress(alts: seq<Alt>, gadget: u16, j: nat): (r: u16)
    requires j <= |alts|
    decreases |alts| - j
  {
    if j == |alts| then gadget
    else
      var k := FindDevice(alts[j].endpoints, gadget % 256, 0);
      if k < |alts[j].endpoints| then alts[j].endpoints[k].device else DeviceAddress(alts, gadget, j + 1)
  }

  method RemapEndpointForDevice(remapping: bool, config: Config, gadget: u16) returns (r: u16)
    ensures r == if remapping then DeviceAddress(config.alts, gadget, 0) else gadget
  {
    if !remapping { return gadget; }
    for j := 0 to |config.alts|
      invariant DeviceAddress(config.alts, gadget, j) == DeviceAddress(config.alts, gadget, 0)
    {
      var eps := config.alts[j].endpoints;
      for k := 0 to |eps|
        invariant FindDevice(eps, gadget % 256, k) == FindDevice(eps, gadget % 256, 0)
      {
        if eps[k].address == gadget % 256 { return eps[k].device; }
      }
    }
    return gadget;
  }

  /** The lookup finds an endpoint shown under the address when there is one. */
  lemma {:induction false} LookupFinds(alts: seq<Alt>, gadget: u16, j: nat, l: nat, m: nat)
    requires j <= l < |alts| && m < |alts[l].endpoints| && alts[l].endpoints[m].address == gadget % 256
    ensures exists x, y :: 0 <= x < |alts| && 0 <= y < |alts[x].endpoints| && alts[x].endpoints[y].address == gadget % 256
              && DeviceAddress(alts, gadget, j) == alts[x].endpoints[y].device
    decreases |alts| - j
  {
    var k := FindDevice(alts[j].endpoints, gadget % 256, 0);
    if k == |alts[j].endpoints| {
      LookupFinds(alts, gadget, j + 1, l, m);
    }
  }

  /** Remap then look up: every endpoint-directed request for a host address reaches the
      device under the endpoint's own address, whatever the high byte of the request. */
  lemma RemapRoundTrip(cands: seq<Candidate>, alts: seq<Alt>, gadget: u16, l: nat, m: nat)
    requires Fresh(alts) && Unambiguous(cands) && Remap(cands, alts).Done?
    requires l < |alts| && m < |alts[l].endpoints|
    requires var now := Remap(cands, alts).value;
             l < |now| && m < |now[l].endpoints| && now[l].endpoints[m].address == gadget % 256
    ensures DeviceAddress(Remap(cands, alts).value, gadget, 0) == alts[l].endpoints[m].device
  {
    hide Remap;
    var now := Remap(cands, alts).value;
    LookupFinds(now, gadget, 0, l, m);
    var x, y :| 0 <= x < |now| && 0 <= y < |now[x].endpoints| && now[x].endpoints[y].address == gadget % 256
                && DeviceAddress(now, gadget, 0) == now[x].endpoints[y].device;
    RemapServes(cands, alts);
    assert AllServed(cands, Remap(cands, alts).book.chosen, alts[x].endpoints, now[x].endpoints);
    HostIdentifiesDevice(cands, alts, x, y, l, m);
  }

  /** An address no endpoint is shown under goes through unchanged, high byte and all. */
  lemma {:induction false} UnknownUnchanged(alts: seq<Alt>, gadget: u16, j: nat)
    requires j <= |alts|
    requires forall l, m :: 0 <= l < |alts| && 0 <= m < |alts[l].endpoints| ==> alts[l].endpoints[m].address != gadget % 256
    ensures DeviceAddress(alts, gadget, j) == gadget
    decreases |alts| - j
  {
    if j < |alts| {
      UnknownUnchanged(alts, gadget, j + 1);
    }
  }

  // ------------------------------------------------------------ where it stops short

  /** The walk over a configuration of one altsetting with two endpoints. */
  function RemapTwo(cands: seq<Candidate>, alt: Alt, e0: Endpoint, e1: Endpoint): Outcome<seq<Alt>> {
    match RemapEndpoint(cands, Blank(cands), e0)
    case Failed => Failed
    case Done(x, b) =>
      match RemapEndpoint(cands, b, e1)
      case Failed => Failed
      case Done(y, c) => Done([alt.(endpoints := [x, y])], c)
  }

  lemma RemapOfTwo(cands: seq<Candidate>, alt: Alt, e0: Endpoint, e1: Endpoint)
    requires alt.endpoints == [e0, e1]
    ensures Remap(cands, [alt]) == RemapTwo(cands, alt, e0, e1)
  {
    hide RemapEndpoint;
    var eps, b := alt.endpoints, Blank(cands);
    assert [alt][..0] == [] && eps[..1] == [e0] && eps[..1][..0] == [];
    assert RemapEndpoints(cands, b, eps[..1]) ==
           match RemapEndpoint(cands, b, e0) { case Failed => Failed case Done(x, c) => Done([] + [x], c) };
    var r := RemapEndpoints(cands, b, eps);
    assert RemapAlts(cands, b, [alt][..0]) == Done([], b);
    assert Remap(cands, [alt]) ==
           match r { case Failed => Failed case Done(v, c) => Done([] + [alt.(endpoints := v)], c) };
    match RemapEndpoint(cands, b, e0)
    case Failed => assert r.Failed?;
    case Done(x, c) =>
      match RemapEndpoint(cands, c, e1)
      case Failed => assert r.Failed?;
      case Done(y, d) =>
        assert ([] + [x]) + [y] == [x, y];
        assert r == Done([x, y], d);
        assert [] + [alt.(endpoints := [x, y])] == [alt.(endpoints := [x, y])];
  }

  /** A free candidate next to a fixed one is ambiguous: it may be handed the very address
      that the fixed one shows, and then two endpoints cannot be told apart. */
  lemma MixedAddressesCollide()
    ensures exists cands: seq<Candidate>, alt: Alt ::
              Fresh([alt]) && Remap(cands, [alt]).Done? && |Remap(cands, [alt]).value| == 1
              && Ambiguous(Remap(cands, [alt]).value[0].endpoints)
  {
    var free := Candidate(ADDR_ANY, true, true, true, true, true, 0);
    var fixed := free.(addr := 1);
    var cands := [free, fixed];
    var e0, e1 := Endpoint(0x81, 0x81, 3, 8, 1, 0), Endpoint(0x82, 0x82, 3, 8, 1, 0);
    var alt := Alt(0, 0, 3, 0, [e0, e1]);
    RemapOfTwo(cands, alt, e0, e1);
    var b0 := Blank(cands);
    assert FirstFit(cands, b0.used, e0, 0);
    FirstFitIsFirst(cands, b0.used, e0, 0);
    var r0 := RemapEndpoint(cands, b0, e0);
    assert FirstFit(cands, r0.book.used, e1, 1);
    FirstFitIsFirst(cands, r0.book.used, e1, 1);
    assert Ambiguous(Remap(cands, [alt]).value[0].endpoints);
  }

  predicate Ambiguous(eps: seq<Endpoint>) {
    |eps| == 2 && eps[0].device != eps[1].device && eps[0].address == eps[1].address
  }

  /** First fit is not complete: it can fail although some assignment of distinct
      supporting candidates exists. */
  lemma FirstFitMissesAnAssignment()
    ensures exists cands: seq<Candidate>, alt: Alt ::
              && |cands| == 2 && |alt.endpoints| == 2 && Fresh([alt]) && Remap(cands, [alt]).Failed?
              && Supports(cands[1], alt.endpoints[0]) && Supports(cands[0], alt.endpoints[1])
  {
    var any := Candidate(ADDR_ANY, true, true, true, true, true, 0);
    var bulkOnly := any.(iso := false, intr := false);
    var cands := [any, bulkOnly];
    var e0, e1 := Endpoint(0x81, 0x81, 2, 8, 1, 0), Endpoint(0x82, 0x82, 3, 8, 1, 0);
    var alt := Alt(0, 0, 3, 0, [e0, e1]);
    RemapOfTwo(cands, alt, e0, e1);
    FirstFitIsFirst(cands, Blank(cands).used, e0, 0);
    var r0 := RemapEndpoint(cands, Blank(cands), e0);
    assert NoFit(cands, r0.book.used, e1);
  }

  /** A device address seen before keeps its candidate without a second look: a larger
      alternate setting can end on a candidate that does not support it. */
  lemma ReuseSkipsTheCheck()
    ensures exists cands: seq<Candidate>, alt: Alt ::
              && |cands| == 1 && |alt.endpoints| == 2 && Fresh([alt]) && Remap(cands, [alt]).Done?
              && !Supports(cands[0], alt.endpoints[1])
  {
    var c := Candidate(1, true, true, true, true, true, 64);
    var e0, e1 := Endpoint(0x81, 0x81, 3, 8, 1, 0), Endpoint(0x81, 0x81, 3, 512, 1, 0);
    var alt := Alt(0, 0, 3, 0, [e0, e1]);
    RemapOfTwo([c], alt, e0, e1);
    FirstFitIsFirst([c], Blank([c]).used, e0, 0);
    var r0 := RemapEndpoint([c], Blank([c]), e0);
    assert e1.device in r0.book.chosen;
  }

  // ------------------------------------------------------------ when it succeeds

  function Supporting(cands: seq<Candidate>, ep: Endpoint): set<nat> {
    set i | 0 <= i < |cands| && Supports(cands[i], ep)
  }

  function Devices(alts: seq<Alt>): set<byte> {
    set j, k | 0 <= j < |alts| && 0 <= k < |alts[j].endpoints| :: alts[j].endpoints[k].device
  }

  /** Every endpoint has as many supporting candidates as there are device addresses. */
  predicate Enough(cands: seq<Candidate>, devices: set<byte>, eps: seq<Endpoint>) {
    forall k :: 0 <= k < |eps| ==> eps[k].device in devices && |devices| <= |Supporting(cands, eps[k])|
  }

  function UsedSet(used: seq<bool>): set<nat> {
    set i | 0 <= i < |used| && used[i]
  }

  /** As many candidates are used as device addresses were seen, all of them in devices. */
  predicate Tally(b: Book, devices: set<byte>) {
    |UsedSet(b.used)| <= |b.chosen.Keys| && b.chosen.Keys <= devices
  }

  lemma SubsetSize<T>(a: set<T>, b: set<T>)
    requires a <= b
    ensures |a| <= |b|
  {
    assert b == a + (b - a);
  }

  lemma EndpointSucceeds(cands: seq<Candidate>, b: Book, devices: set<byte>, ep: Endpoint)
    requires BookFits(cands, b) && Tally(b, devices)
    requires ep.device in devices && |devices| <= |Supporting(cands, ep)|
    ensures RemapEndpoint(cands, b, ep).Done? && Tally(RemapEndpoint(cands, b, ep).book, devices)
  {
    hide Supports;
    hide Assigned;
    hide UsedSet;
    hide Supporting;
    hide FirstFrom;
    if ep.device !in b.chosen {
      SubsetSize(b.chosen.Keys + {ep.device}, devices);
      var i := FirstFrom(cands, b.used, ep, 0);
      if i == |cands| {
        NoFitTooFew(cands, b.used, ep);
        assert false;
      }
      UsedGrows(b.used, i);
      var r := RemapEndpoint(cands, b, ep);
      assert r.book.chosen.Keys == b.chosen.Keys + {ep.device};
    }
  }

  lemma NoFitTooFew(cands: seq<Candidate>, used: seq<bool>, ep: Endpoint)
    requires |used| == |cands| && NoFit(cands, used, ep)
    ensures |Supporting(cands, ep)| <= |UsedSet(used)|
  {
    hide Supports;
    SubsetSize(Supporting(cands, ep), UsedSet(used));
  }

  lemma UsedGrows(used: seq<bool>, i: nat)
    requires i < |used|
    ensures |UsedSet(used[i := true])| <= |UsedSet(used)| + 1
  {
    assert UsedSet(used[i := true]) == UsedSet(used) + {i};
  }

  lemma {:induction false} EndpointsSucceed(cands: seq<Candidate>, b: Book, devices: set<byte>, eps: seq<Endpoint>)
    requires BookFits(cands, b) && Tally(b, devices) && Enough(cands, devices, eps)
    ensures RemapEndpoints(cands, b, eps).Done? && Tally(RemapEndpoints(cands, b, eps).book, devices)
    decreases |eps|
  {
    hide RemapEndpoint;
    hide Tally;
    hide Supporting;
    if eps != [] {
      var last := |eps| - 1;
      EndpointsSucceed(cands, b, devices, eps[..last]);
      EndpointSucceeds(cands, RemapEndpoints(cands, b, eps[..last]).book, devices, eps[last]);
    }
  }

  lemma {:induction false} AltsSucceed(cands: seq<Candidate>, b: Book, devices: set<byte>, alts: seq<Alt>)
    requires BookFits(cands, b) && Tally(b, devices)
    requires forall j :: 0 <= j < |alts| ==> Enough(cands, devices, alts[j].endpoints)
    ensures RemapAlts(cands, b, alts).Done? && Tally(RemapAlts(cands, b, alts).book, devices)
    decreases |alts|
  {
    hide RemapEndpoints;
    hide Tally;
    hide Enough;
    if alts != [] {
      var last := |alts| - 1;
      AltsSucceed(cands, b, devices, alts[..last]);
      EndpointsSucceed(cands, RemapAlts(cands, b, alts[..last]).book, devices, alts[last].endpoints);
    }
  }

  /** First fit cannot fail when each endpoint is supported by at least as many candidates
      as the configuration has device addresses. */
  lemma EnoughCandidatesSuffice(cands: seq<Candidate>, alts: seq<Alt>)
    requires forall j, k :: 0 <= j < |alts| && 0 <= k < |alts[j].endpoints|
               ==> |Devices(alts)| <= |Supporting(cands, alts[j].endpoints[k])|
    ensures Remap(cands, alts).Done?
  {
    hide Supporting;
    hide RemapAlts;
    assert UsedSet(Blank(cands).used) == {};
    assert Tally(Blank(cands), Devices(alts));
    AltsSucceed(cands, Blank(cands), Devices(alts), alts);
  }
}
