/** Assigning UDC endpoints to the endpoints of a configuration, first fit in descriptor
    order, and the lookup that translates a gadget address back to the device's. */
module EndpointRemap {
  import opened Bytes

  const ADDR_ANY: nat := 0xff
  const DIR_IN: nat := 0x80
  const XFER_ISOC: nat := 1
  const XFER_BULK: nat := 2
  const XFER_INT: nat := 3

  /** What raw-gadget reports about one UDC endpoint. */
  datatype Candidate = Candidate(addr: byte, dirIn: bool, dirOut: bool,
                                 iso: bool, bulk: bool, intr: bool, limit: u16)

  /** One endpoint of the configuration: the address the device uses, and the descriptor
      shown to the host. */
  datatype Endpoint = Endpoint(device: byte, address: byte, attributes: byte,
                               maxPacket: u16, interval: byte, limit: u16)
  {
    predicate In() { address >= DIR_IN }

    function Type(): nat { attributes % 4 }

    function MaxP(): nat { maxPacket % 0x800 }

    /** Bits 11 and 12: additional transactions per microframe. */
    predicate HighBandwidth() { (maxPacket / 0x800) % 4 != 0 }
  }

  /** One altsetting. The interface level of the source only groups altsettings, and every
      walk visits them in order, so a configuration holds them in that order. */
  datatype Alt = Alt(number: byte, setting: byte, class_: byte, subclass: byte, endpoints: seq<Endpoint>)

  predicate Supports(c: Candidate, ep: Endpoint) {
    && (if ep.In() then c.dirIn else c.dirOut)
    && (if ep.Type() == XFER_ISOC then c.iso
        else if ep.Type() == XFER_BULK then c.bulk
        else ep.Type() == XFER_INT && c.intr)
    && (c.limit == 0 || ep.MaxP() <= c.limit)
  }

  function HostAddress(c: Candidate, device: byte, dirIn: bool): byte {
    if c.addr == ADDR_ANY then device
    else if dirIn then c.addr % DIR_IN + DIR_IN
    else c.addr % DIR_IN
  }

  /** The UDC cannot do high bandwidth, so an isochronous packet is cut to its limit. */
  function Clamped(ep: Endpoint): Endpoint {
    if ep.Type() == XFER_ISOC && ep.limit != 0 && (ep.MaxP() > ep.limit || ep.HighBandwidth())
    then ep.(maxPacket := ep.limit) else ep
  }

  function Assigned(c: Candidate, ep: Endpoint): Endpoint {
    Clamped(ep.(address := HostAddress(c, ep.device, ep.In()), limit := c.limit))
  }

  /** Which candidates are taken, and by which device address. */
  datatype Book = Book(used: seq<bool>, chosen: map<byte, nat>)

  predicate FirstFit(cands: seq<Candidate>, used: seq<bool>, ep: Endpoint, i: nat)
    requires |used| == |cands|
  {
    && i < |cands| && !used[i] && Supports(cands[i], ep)
    && forall j :: 0 <= j < i ==> used[j] || !Supports(cands[j], ep)
  }

  predicate NoFit(cands: seq<Candidate>, used: seq<bool>, ep: Endpoint)
    requires |used| == |cands|
  {
    forall j :: 0 <= j < |cands| ==> used[j] || !Supports(cands[j], ep)
  }

  /** The first unused supporting candidate at or after i, or |cands|. */
  function FirstFrom(cands: seq<Candidate>, used: seq<bool>, ep: Endpoint, i: nat): (r: nat)
    requires |used| == |cands| && i <= |cands|
    requires forall j :: 0 <= j < i ==> used[j] || !Supports(cands[j], ep)
    ensures if r < |cands| then FirstFit(cands, used, ep, r) else r == |cands| && NoFit(cands, used, ep)
    decreases |cands| - i
  {
    if i == |cands| then i
    else if !used[i] && Supports(cands[i], ep) then i
    else FirstFrom(cands, used, ep, i + 1)
  }

  method FindCandidate(cands: seq<Candidate>, used: seq<bool>, ep: Endpoint) returns (index: int)
    requires |used| == |cands|
    ensures index >= 0 ==> FirstFit(cands, used, ep, index)
    ensures index < 0 ==> index == -1 && NoFit(cands, used, ep)
  {
    for i := 0 to |cands|
      invariant forall j :: 0 <= j < i ==> used[j] || !Supports(cands[j], ep)
    {
      if used[i] { continue; }
      if !Supports(cands[i], ep) { continue; }
      return i;
    }
    return -1;
  }

  lemma FirstFitIsFirst(cands: seq<Candidate>, used: seq<bool>, ep: Endpoint, i: nat)
    requires |used| == |cands| && FirstFit(cands, used, ep, i)
    ensures FirstFrom(cands, used, ep, 0) == i
  {
  }

  /** The book after one endpoint, or None when no candidate is left for it. */
  datatype Outcome<T> = Failed | Done(value: T, book: Book)

  predicate BookFits(cands: seq<Candidate>, b: Book) {
    && |b.used| == |cands|
    && forall d :: d in b.chosen ==> b.chosen[d] < |cands| && b.used[b.chosen[d]]
  }

  function RemapEndpoint(cands: seq<Candidate>, b: Book, ep: Endpoint): (r: Outcome<Endpoint>)
    requires BookFits(cands, b)
    ensures r.Done? ==> BookFits(cands, r.book)
  {
    if ep.device in b.chosen then Done(Assigned(cands[b.chosen[ep.device]], ep), b)
    else
      var i := FirstFrom(cands, b.used, ep, 0);
      if i == |cands| then Failed
      else Done(Assigned(cands[i], ep), Book(b.used[i := true], b.chosen[ep.device := i]))
  }

  function RemapEndpoints(cands: seq<Candidate>, b: Book, eps: seq<Endpoint>): (r: Outcome<seq<Endpoint>>)
    requires BookFits(cands, b)
    ensures r.Done? ==> BookFits(cands, r.book) && |r.value| == |eps|
    decreases |eps|
  {
    if eps == [] then Done([], b)
    else
      var last := |eps| - 1;
      match RemapEndpoints(cands, b, eps[..last])
      case Failed => Failed
      case Done(front, b1) =>
        match RemapEndpoint(cands, b1, eps[last])
        case Failed => Failed
        case Done(ep, b2) => Done(front + [ep], b2)
  }

  function RemapAlts(cands: seq<Candidate>, b: Book, alts: seq<Alt>): (r: Outcome<seq<Alt>>)
    requires BookFits(cands, b)
    ensures r.Done? ==> BookFits(cands, r.book) && |r.value| == |alts|
    decreases |alts|
  {
    if alts == [] then Done([], b)
    else
      var last := |alts| - 1;
      match RemapAlts(cands, b, alts[..last])
      case Failed => Failed
      case Done(front, b1) =>
        match RemapEndpoints(cands, b1, alts[last].endpoints)
        case Failed => Failed
        case Done(eps, b2) => Done(front + [alts[last].(endpoints := eps)], b2)
  }

  function Blank(cands: seq<Candidate>): (b: Book)
    ensures BookFits(cands, b) && b.chosen == map[]
    ensures forall i :: 0 <= i < |cands| ==> !b.used[i]
  {
    Book(seq(|cands|, _ => false), map[])
  }

  function Remap(cands: seq<Candidate>, alts: seq<Alt>): Outcome<seq<Alt>> {
    RemapAlts(cands, Blank(cands), alts)
  }

  /** The body of remap_config_endpoints for one endpoint. */
  method AssignEndpoint(cands: seq<Candidate>, ep0: Endpoint, used0: seq<bool>, chosen0: map<byte, nat>)
    returns (ok: bool, ep: Endpoint, used: seq<bool>, chosen: map<byte, nat>)
    requires BookFits(cands, Book(used0, chosen0))
    ensures var r := RemapEndpoint(cands, Book(used0, chosen0), ep0);
            ok == r.Done? && (ok ==> r == Done(ep, Book(used, chosen)))
  {
    hide Supports;
    ep, used, chosen := ep0, used0, chosen0;
    var index: nat;
    if ep.device in chosen {
      index := chosen[ep.device];
    } else {
      var found := FindCandidate(cands, used, ep);
      if found < 0 { return false, ep, used, chosen; }
      FirstFitIsFirst(cands, used, ep, found);
      index := found;
      chosen := chosen[ep.device := index];
      used := used[index := true];
    }
    ep := ep.(address := HostAddress(cands[index], ep.device, ep.In()), limit := cands[index].limit);
    if ep.Type() == XFER_ISOC && ep.limit != 0 {
      if ep.MaxP() > ep.limit || ep.HighBandwidth() {
        ep := ep.(maxPacket := ep.limit);
      }
    }
    ok := true;
  }

  /** struct raw_gadget_config: the altsettings whose endpoints the remap overwrites. */
  class Config {
    var alts: seq<Alt>

    constructor (device: seq<Alt>)
      ensures alts == device
    {
      alts := device;
    }

    /** The body of remap_config_endpoints for altsetting j: its endpoint loop. */
    method RemapAltsetting(cands: seq<Candidate>, j: nat, used0: seq<bool>, chosen0: map<byte, nat>)
      returns (ok: bool, used: seq<bool>, chosen: map<byte, nat>)
      requires j < |alts| && BookFits(cands, Book(used0, chosen0))
      modifies this
      ensures |alts| == old(|alts|)
      ensures var r := RemapEndpoints(cands, Book(used0, chosen0), old(alts[j].endpoints));
              && ok == r.Done?
              && (ok ==> r.book == Book(used, chosen) && alts == old(alts)[j := old(alts[j]).(endpoints := r.value)])
    {
      hide RemapEndpoint;
      used, chosen := used0, chosen0;
      ghost var b0 := Book(used0, chosen0);
      ghost var was := alts;
      ghost var mine := alts[j].endpoints;
      var k := 0;
      while k < |alts[j].endpoints|
        invariant |alts| == |was| && 0 <= k <= |alts[j].endpoints| == |mine|
        invariant alts == was[j := was[j].(endpoints := alts[j].endpoints)]
        invariant alts[j].endpoints[k..] == mine[k..]
        invariant BookFits(cands, Book(used, chosen))
        invariant RemapEndpoints(cands, b0, mine[..k]) == Done(alts[j].endpoints[..k], Book(used, chosen))
      {
        var ep := alts[j].endpoints[k];
        assert ep == mine[k] by { assert alts[j].endpoints[k..][0] == mine[k..][0]; }
        assert mine[..k + 1][..k] == mine[..k];
        ghost var eps := alts[j].endpoints;
        ok, ep, used, chosen := AssignEndpoint(cands, ep, used, chosen);
        if !ok {
          EndpointsFail(cands, b0, mine, k + 1);
          return;
        }
        alts := alts[j := alts[j].(endpoints := alts[j].endpoints[k := ep])];
        k := k + 1;
        assert alts[j].endpoints[..k] == eps[..k - 1] + [ep];
      }
      assert mine[..k] == mine && alts[j].endpoints[..k] == alts[j].endpoints;
      return true, used, chosen;
    }

    /** remap_config_endpoints. On failure the endpoints already visited stay remapped. */
    method RemapAll(cands: seq<Candidate>) returns (ok: bool)
      modifies this
      ensures ok == Remap(cands, old(alts)).Done?
      ensures ok ==> alts == Remap(cands, old(alts)).value
    {
      hide RemapEndpoints;
      hide RemapAlts;
      hide BookFits;
      var used := seq(|cands|, _ => false);
      var chosen: map<byte, nat> := map[];
      ghost var was := alts;
      ghost var blank := Blank(cands);
      assert Book(used, chosen) == blank;
      AltsStart(cands, blank);
      var j := 0;
      while j < |alts|
        invariant 0 <= j <= |alts| == |was|
        invariant alts[j..] == was[j..]
        invariant BookFits(cands, Book(used, chosen))
        invariant RemapAlts(cands, blank, was[..j]) == Done(alts[..j], Book(used, chosen))
      {
        ghost var before := alts;
        assert alts[j] == was[j] by { assert alts[j..][0] == was[j..][0]; }
        AltsNext(cands, blank, was, j);
        ok, used, chosen := RemapAltsetting(cands, j, used, chosen);
        if !ok {
          AltsFail(cands, blank, was, j + 1);
          return;
        }
        assert alts == before[j := alts[j]];
        j := j + 1;
        assert alts[..j] == before[..j - 1] + [alts[j - 1]];
      }
      assert was[..j] == was && alts[..j] == alts;
      return true;
    }
  }

  lemma AltsStart(cands: seq<Candidate>, b: Book)
    requires BookFits(cands, b)
    ensures RemapAlts(cands, b, []) == Done([], b)
  {
  }

  lemma AltsNext(cands: seq<Candidate>, b: Book, alts: seq<Alt>, j: nat)
    requires BookFits(cands, b) && j < |alts| && RemapAlts(cands, b, alts[..j]).Done?
    ensures var f := RemapAlts(cands, b, alts[..j]);
            var r := RemapEndpoints(cands, f.book, alts[j].endpoints);
            RemapAlts(cands, b, alts[..j + 1])
            == if r.Done? then Done(f.value + [alts[j].(endpoints := r.value)], r.book) else Failed
  {
    assert alts[..j + 1][..j] == alts[..j];
  }

  /** A failure at one endpoint is a failure of the whole walk. */
  lemma {:induction false} EndpointsFail(cands: seq<Candidate>, b: Book, eps: seq<Endpoint>, k: nat)
    requires BookFits(cands, b) && k <= |eps| && RemapEndpoints(cands, b, eps[..k]).Failed?
    ensures RemapEndpoints(cands, b, eps).Failed?
    decreases |eps|
  {
    if k < |eps| {
      assert eps[..|eps| - 1][..k] == eps[..k];
      EndpointsFail(cands, b, eps[..|eps| - 1], k);
    } else {
      assert eps[..k] == eps;
    }
  }

  lemma {:induction false} AltsFail(cands: seq<Candidate>, b: Book, alts: seq<Alt>, j: nat)
    requires BookFits(cands, b) && j <= |alts| && RemapAlts(cands, b, alts[..j]).Failed?
    ensures RemapAlts(cands, b, alts).Failed?
    decreases |alts|
  {
    if j < |alts| {
      assert alts[..|alts| - 1][..j] == alts[..j];
      AltsFail(cands, b, alts[..|alts| - 1], j);
    } else {
      assert alts[..j] == alts;
    }
  }

  // ------------------------------------------------------------ what the bits mean

  /** A candidate supports an endpoint exactly when it can do its direction (IN from address
      128 on), its transfer type (1 isochronous, 2 bulk, 3 interrupt; never control) and its
      packet size, the low eleven bits, unless its limit is 0, which stands for none. */
  lemma SupportsExactly(c: Candidate, ep: Endpoint)
    ensures Supports(c, ep) <==>
              && (ep.address >= 128 ==> c.dirIn) && (ep.address < 128 ==> c.dirOut)
              && (match ep.attributes % 4 case 1 => c.iso case 2 => c.bulk case 3 => c.intr case _ => false)
              && (c.limit == 0 || ep.maxPacket % 2048 <= c.limit)
  {
  }

  /** A candidate with any address (255) takes the device's; any other gives its number, with
      the direction in the top bit. */
  lemma AssignedExactly(c: Candidate, ep: Endpoint)
    ensures var r := Assigned(c, ep);
            && (c.addr == 255 ==> r.address == ep.device)
            && (c.addr != 255 ==> r.address % 128 == c.addr % 128 && (r.address >= 128 <==> ep.address >= 128))
            && r.device == ep.device && r.attributes == ep.attributes && r.interval == ep.interval && r.limit == c.limit
            && (r.maxPacket != ep.maxPacket ==> r.maxPacket == c.limit)
            && (ep.attributes % 4 == 1 && c.limit != 0 ==>
                  (r.maxPacket == c.limit <==>
                     ep.maxPacket == c.limit || ep.maxPacket % 2048 > c.limit || ep.maxPacket / 2048 % 4 != 0))
            && (ep.attributes % 4 != 1 || c.limit == 0 ==> r.maxPacket == ep.maxPacket)
  {
  }
}
