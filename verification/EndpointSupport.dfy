/** Whether the endpoints a remap hands out support what they serve: the first endpoint of
    each device address is checked, the later ones ride on it, and a configuration is safe
    with every UDC exactly when its first endpoints ask for the most. */
module EndpointSupport {
  import opened Bytes
  import opened EndpointRemap
  import opened RemapLaws

  /** The endpoints of a configuration in the order the remap visits them. */
  function Flat(alts: seq<Alt>): seq<Endpoint> {
    if alts == [] then []
    else Flat(alts[..|alts| - 1]) + alts[|alts| - 1].endpoints
  }

  lemma {:induction false} FlatFresh(alts: seq<Alt>)
    requires Fresh(alts)
    ensures FreshList(Flat(alts))
    decreases |alts|
  {
    if alts != [] {
      FlatFresh(alts[..|alts| - 1]);
    }
  }

  predicate FreshList(eps: seq<Endpoint>) {
    forall k :: 0 <= k < |eps| ==> eps[k].address == eps[k].device
  }

  function Chained(cands: seq<Candidate>, b: Book, xs: seq<Endpoint>, ys: seq<Endpoint>): Outcome<seq<Endpoint>>
    requires BookFits(cands, b)
  {
    match RemapEndpoints(cands, b, xs)
    case Failed => Failed
    case Done(front, b1) =>
      match RemapEndpoints(cands, b1, ys)
      case Failed => Failed
      case Done(back, b2) => Done(front + back, b2)
  }

  /** The walk over two lists is the walk over the second after the walk over the first. */
  lemma {:induction false} WalkAppends(cands: seq<Candidate>, b: Book, xs: seq<Endpoint>, ys: seq<Endpoint>)
    requires BookFits(cands, b)
    ensures RemapEndpoints(cands, b, xs + ys) == Chained(cands, b, xs, ys)
    decreases |ys|
  {
    hide RemapEndpoint;
    hide BookFits;
    if ys == [] {
      assert xs + ys == xs;
      var r := RemapEndpoints(cands, b, xs);
      if r.Done? {
        assert r.value + [] == r.value;
      }
    } else {
      var last := |ys| - 1;
      WalkAppends(cands, b, xs, ys[..last]);
      var all := xs + ys;
      assert all[..|all| - 1] == xs + ys[..last] && all[|all| - 1] == ys[last];
      var r := Chained(cands, b, xs, ys);
      if r.Done? {
        var x := RemapEndpoints(cands, b, xs);
        var y := RemapEndpoints(cands, x.book, ys[..last]);
        var z := RemapEndpoint(cands, y.book, ys[last]);
        assert x.value + (y.value + [z.value]) == (x.value + y.value) + [z.value];
      }
    }
  }

  /** The remap of a configuration keeps the books of the walk over its endpoints. */
  lemma {:induction false} FlatWalk(cands: seq<Candidate>, b: Book, alts: seq<Alt>)
    requires BookFits(cands, b)
    ensures var r, s := RemapAlts(cands, b, alts), RemapEndpoints(cands, b, Flat(alts));
            (r.Done? <==> s.Done?) && (r.Done? ==> r.book == s.book)
    decreases |alts|
  {
    hide RemapEndpoint;
    hide BookFits;
    if alts != [] {
      var last := |alts| - 1;
      FlatWalk(cands, b, alts[..last]);
      WalkAppends(cands, b, Flat(alts[..last]), alts[last].endpoints);
    }
  }

  // ------------------------------------------------------------ the first of each address

  /** No earlier endpoint has this one's device address. */
  predicate First(eps: seq<Endpoint>, k: nat)
    requires k < |eps|
  {
    forall i :: 0 <= i < k ==> eps[i].device != eps[k].device
  }

  function DeviceSet(eps: seq<Endpoint>): set<byte> {
    set e <- eps :: e.device
  }

  lemma DeviceSetStep(eps: seq<Endpoint>)
    requires eps != []
    ensures DeviceSet(eps) == DeviceSet(eps[..|eps| - 1]) + {eps[|eps| - 1].device}
  {
    assert eps == eps[..|eps| - 1] + [eps[|eps| - 1]];
  }

  /** The endpoint with this one's device address that was checked. */
  lemma {:induction false} FirstExists(eps: seq<Endpoint>, m: nat) returns (k: nat)
    requires m < |eps|
    ensures k <= m && First(eps, k) && eps[k].device == eps[m].device
  {
    if First(eps, m) {
      k := m;
    } else {
      var i :| 0 <= i < m && eps[i].device == eps[m].device;
      k := FirstExists(eps, i);
    }
  }

  predicate FirstsSupported(cands: seq<Candidate>, chosen: map<byte, nat>, eps: seq<Endpoint>) {
    && chosen.Keys == DeviceSet(eps)
    && (forall d :: d in chosen ==> chosen[d] < |cands|)
    && forall k :: 0 <= k < |eps| && First(eps, k) ==>
         eps[k].device in chosen && Supports(cands[chosen[eps[k].device]], eps[k])
  }

  /** The first endpoint of each device address is supported by the candidate it gets. */
  lemma {:induction false} WalkChecksFirsts(cands: seq<Candidate>, eps: seq<Endpoint>)
    requires RemapEndpoints(cands, Blank(cands), eps).Done?
    ensures FirstsSupported(cands, RemapEndpoints(cands, Blank(cands), eps).book.chosen, eps)
    decreases |eps|
  {
    hide Supports;
    hide DeviceSet;
    hide FirstsSupported;
    hide RemapEndpoint;
    if eps == [] {
      NoneSupported(cands);
    } else {
      var last := |eps| - 1;
      WalkChecksFirsts(cands, eps[..last]);
      DeviceSetStep(eps);
      var b := RemapEndpoints(cands, Blank(cands), eps[..last]).book;
      ChecksStep(cands, b, eps);
    }
  }

  lemma NoneSupported(cands: seq<Candidate>)
    ensures FirstsSupported(cands, map[], [])
  {
    NoDevices([]);
  }

  lemma ChecksStep(cands: seq<Candidate>, b: Book, eps: seq<Endpoint>)
    requires BookFits(cands, b) && eps != [] && FirstsSupported(cands, b.chosen, eps[..|eps| - 1])
    requires RemapEndpoint(cands, b, eps[|eps| - 1]).Done?
    requires DeviceSet(eps) == DeviceSet(eps[..|eps| - 1]) + {eps[|eps| - 1].device}
    ensures FirstsSupported(cands, RemapEndpoint(cands, b, eps[|eps| - 1]).book.chosen, eps)
  {
    hide Supports;
    hide Assigned;
    hide DeviceSet;
    hide FirstFrom;
    var last := |eps| - 1;
    var now := RemapEndpoint(cands, b, eps[last]).book;
    forall k | 0 <= k < |eps| && First(eps, k)
      ensures eps[k].device in now.chosen && Supports(cands[now.chosen[eps[k].device]], eps[k])
    {
      if k < last {
        assert First(eps[..last], k) && eps[..last][k] == eps[k];
        assert eps[k].device in b.chosen;
      } else {
        NotSeen(eps, k);
      }
    }
  }

  lemma NoDevices(eps: seq<Endpoint>)
    requires eps == []
    ensures DeviceSet(eps) == {}
  {
  }

  lemma NotSeen(eps: seq<Endpoint>, k: nat)
    requires k < |eps| && First(eps, k)
    ensures eps[k].device !in DeviceSet(eps[..k])
  {
  }

  /** Every successful remap gives the first endpoint of each device address, in the order
      of the descriptors, a candidate that supports it: direction, type and packet size. */
  lemma RemapChecksFirsts(cands: seq<Candidate>, alts: seq<Alt>)
    requires Remap(cands, alts).Done?
    ensures FirstsSupported(cands, Remap(cands, alts).book.chosen, Flat(alts))
  {
    hide RemapAlts;
    hide RemapEndpoints;
    FlatWalk(cands, Blank(cands), alts);
    WalkChecksFirsts(cands, Flat(alts));
  }

  // ------------------------------------------------------------ the later ones

  /** The endpoint as the device declares it, or as it is shown to the host, with an
      isochronous packet cut to the limit. */
  function Judged(shown: bool, c: Candidate, ep: Endpoint): Endpoint {
    if shown then Assigned(c, ep) else ep
  }

  predicate AllSupported(shown: bool, cands: seq<Candidate>, chosen: map<byte, nat>, eps: seq<Endpoint>) {
    forall k :: 0 <= k < |eps| ==>
      && eps[k].device in chosen && chosen[eps[k].device] < |cands|
      && var c := cands[chosen[eps[k].device]]; Supports(c, Judged(shown, c, eps[k]))
  }

  /** a asks for what b asks for: the same type, and a packet at least as large unless b's
      is within every limit there can be. */
  predicate Covers(shown: bool, a: Endpoint, b: Endpoint) {
    && a.Type() == b.Type()
    && (b.MaxP() <= a.MaxP() || b.MaxP() <= 1 || (shown && b.Type() == XFER_ISOC))
  }

  predicate FirstsCover(shown: bool, eps: seq<Endpoint>) {
    forall k, m :: 0 <= k < m < |eps| && First(eps, k) && eps[m].device == eps[k].device ==> Covers(shown, eps[k], eps[m])
  }

  /** No first endpoint of an address is a control endpoint, which nothing supports. */
  predicate NoControl(eps: seq<Endpoint>) {
    forall k :: 0 <= k < |eps| && First(eps, k) ==> eps[k].Type() != 0
  }

  lemma SupportPasses(shown: bool, c: Candidate, a: Endpoint, b: Endpoint)
    requires Supports(c, a) && Covers(shown, a, b)
    requires a.device == b.device && a.address == a.device && b.address == b.device
    ensures Supports(c, Judged(shown, c, b))
  {
  }

  lemma CoveredAreSupported(shown: bool, cands: seq<Candidate>, alts: seq<Alt>)
    requires Fresh(alts) && FirstsCover(shown, Flat(alts)) && Remap(cands, alts).Done?
    ensures AllSupported(shown, cands, Remap(cands, alts).book.chosen, Flat(alts))
  {
    hide Remap;
    hide Supports;
    hide Judged;
    hide Covers;
    hide Flat;
    RemapChecksFirsts(cands, alts);
    FlatFresh(alts);
    var eps, chosen := Flat(alts), Remap(cands, alts).book.chosen;
    forall m | 0 <= m < |eps|
      ensures eps[m].device in chosen && chosen[eps[m].device] < |cands|
      ensures var c := cands[chosen[eps[m].device]]; Supports(c, Judged(shown, c, eps[m]))
    {
      var k := FirstExists(eps, m);
      if k == m {
        CoversItself(shown, eps[m]);
      }
      SupportPasses(shown, cands[chosen[eps[m].device]], eps[k], eps[m]);
    }
  }

  lemma CoversItself(shown: bool, a: Endpoint)
    ensures Covers(shown, a, a)
  {
  }

  // ------------------------------------------------------------ a UDC that shows it

  /** Whatever is taken next suits: the endpoint after i addresses fits candidate i. */
  predicate Suits(cands: seq<Candidate>, eps: seq<Endpoint>) {
    && |eps| <= |cands|
    && forall k :: 0 <= k < |eps| && First(eps, k) ==> Supports(cands[Before(eps, k)], eps[k])
  }

  /** How many device addresses were seen before endpoint k. */
  function Before(eps: seq<Endpoint>, k: nat): (n: nat)
    requires k <= |eps|
    ensures n <= k
  {
    SeenBound(eps[..k]);
    |DeviceSet(eps[..k])|
  }

  lemma {:induction false} SeenBound(eps: seq<Endpoint>)
    ensures |DeviceSet(eps)| <= |eps|
    decreases |eps|
  {
    if eps != [] {
      SeenBound(eps[..|eps| - 1]);
      DeviceSetStep(eps);
    }
  }

  /** Candidates were taken in order, one for each device address. */
  predicate InOrder(cands: seq<Candidate>, b: Book, eps: seq<Endpoint>) {
    && |b.used| == |cands| && b.chosen.Keys == DeviceSet(eps)
    && (forall i :: 0 <= i < |cands| ==> (b.used[i] <==> i < |DeviceSet(eps)|))
    && forall k :: 0 <= k < |eps| && First(eps, k) ==> eps[k].device in b.chosen && b.chosen[eps[k].device] == Before(eps, k)
  }

  lemma {:induction false} WalkInOrder(cands: seq<Candidate>, eps: seq<Endpoint>)
    requires Suits(cands, eps)
    ensures var r := RemapEndpoints(cands, Blank(cands), eps); r.Done? && InOrder(cands, r.book, eps)
    decreases |eps|
  {
    hide Supports;
    hide Assigned;
    hide DeviceSet;
    if eps == [] {
      NoDevices(eps);
    } else {
      var last := |eps| - 1;
      forall k | 0 <= k < last && First(eps[..last], k)
        ensures Supports(cands[Before(eps[..last], k)], eps[..last][k]) && First(eps, k) && Before(eps, k) == Before(eps[..last], k)
      {
        assert eps[..last][..k] == eps[..k] && First(eps, k);
      }
      WalkInOrder(cands, eps[..last]);
      OrderStep(cands, RemapEndpoints(cands, Blank(cands), eps[..last]).book, eps);
    }
  }

  lemma OrderStep(cands: seq<Candidate>, b: Book, eps: seq<Endpoint>)
    requires eps != [] && Suits(cands, eps) && BookFits(cands, b) && InOrder(cands, b, eps[..|eps| - 1])
    ensures var r := RemapEndpoint(cands, b, eps[|eps| - 1]); r.Done? && InOrder(cands, r.book, eps)
  {
    hide Supports;
    hide Assigned;
    hide DeviceSet;
    hide FirstFrom;
    hide Before;
    hide First;
    var last := |eps| - 1;
    var ep, n := eps[last], |DeviceSet(eps[..last])|;
    DeviceSetStep(eps);
    SeenBound(eps[..last]);
    EarlierFirsts(b.chosen, eps);
    LastIsFirst(eps);
    if ep.device in b.chosen {
      assert DeviceSet(eps) == DeviceSet(eps[..last]);
    } else {
      assert Before(eps, last) == n by { BeforeIs(eps, last); }
      assert FirstFit(cands, b.used, ep, n);
      FirstFitIsFirst(cands, b.used, ep, n);
    }
  }

  lemma BeforeIs(eps: seq<Endpoint>, k: nat)
    requires k <= |eps|
    ensures Before(eps, k) == |DeviceSet(eps[..k])|
  {
  }

  lemma EarlierFirsts(chosen: map<byte, nat>, eps: seq<Endpoint>)
    requires eps != []
    requires var was := eps[..|eps| - 1];
             forall k :: 0 <= k < |was| && First(was, k) ==> was[k].device in chosen && chosen[was[k].device] == Before(was, k)
    ensures forall k :: 0 <= k < |eps| - 1 && First(eps, k) ==>
              eps[k].device in chosen && chosen[eps[k].device] == Before(eps, k)
  {
    hide DeviceSet;
    var was := eps[..|eps| - 1];
    forall k | 0 <= k < |was| && First(eps, k)
      ensures eps[k].device in chosen && chosen[eps[k].device] == Before(eps, k)
    {
      assert was[..k] == eps[..k] && First(was, k) && was[k] == eps[k];
    }
  }

  lemma LastIsFirst(eps: seq<Endpoint>)
    requires eps != []
    ensures First(eps, |eps| - 1) <==> eps[|eps| - 1].device !in DeviceSet(eps[..|eps| - 1])
  {
  }

  lemma BeforeGrows(eps: seq<Endpoint>, k: nat, m: nat)
    requires k < m <= |eps| && First(eps, k)
    ensures Before(eps, k) < Before(eps, m)
  {
    NotSeen(eps, k);
    assert eps[..m][..k] == eps[..k] && eps[..m][k] == eps[k];
    SubsetSize(DeviceSet(eps[..k]) + {eps[k].device}, DeviceSet(eps[..m]));
  }

  /** Takes every type and size. */
  function Universal(): Candidate {
    Candidate(ADDR_ANY, true, true, true, true, true, 0)
  }

  /** Takes just the type and size of this endpoint. */
  function Tailored(ep: Endpoint): Candidate {
    Candidate(ADDR_ANY, true, true, ep.Type() == XFER_ISOC, ep.Type() == XFER_BULK, ep.Type() == XFER_INT,
              if ep.MaxP() == 0 then 1 else ep.MaxP())
  }

  lemma TailoredIsTight(shown: bool, a: Endpoint, b: Endpoint)
    requires a.device == b.device && b.address == b.device && a.Type() != 0 && !Covers(shown, a, b)
    ensures Supports(Tailored(a), a) && !Supports(Tailored(a), Judged(shown, Tailored(a), b))
  {
  }

  /** One universal candidate for each address, but a tailored one for the address of k. */
  function Refuting(eps: seq<Endpoint>, k: nat): seq<Candidate>
    requires k < |eps|
  {
    seq(|eps|, i => if i == Before(eps, k) then Tailored(eps[k]) else Universal())
  }

  lemma UniversalSupports(ep: Endpoint)
    requires ep.Type() != 0
    ensures Supports(Universal(), ep) && Supports(Tailored(ep), ep)
  {
  }

  lemma RefutingSuits(eps: seq<Endpoint>, k: nat)
    requires k < |eps| && First(eps, k) && NoControl(eps)
    ensures Suits(Refuting(eps, k), eps)
  {
    hide Before;
    hide Supports;
    hide First;
    hide Tailored;
    hide Universal;
    forall m | 0 <= m < |eps| && First(eps, m)
      ensures Supports(Refuting(eps, k)[Before(eps, m)], eps[m])
    {
      UniversalSupports(eps[m]);
      if m < k {
        BeforeGrows(eps, m, k);
      } else if k < m {
        BeforeGrows(eps, k, m);
      }
    }
  }

  /** When a later endpoint asks for more than the first, this UDC is accepted and does not
      support it. */
  lemma RefutingRefutes(shown: bool, alts: seq<Alt>, k: nat, m: nat)
    requires Fresh(alts) && NoControl(Flat(alts))
    requires k < m < |Flat(alts)| && First(Flat(alts), k) && Flat(alts)[m].device == Flat(alts)[k].device
    requires !Covers(shown, Flat(alts)[k], Flat(alts)[m])
    ensures var cands := Refuting(Flat(alts), k);
            Remap(cands, alts).Done? && !AllSupported(shown, cands, Remap(cands, alts).book.chosen, Flat(alts))
  {
    hide RemapEndpoints;
    hide RemapAlts;
    hide Supports;
    hide Covers;
    hide Judged;
    hide Suits;
    hide Flat;
    hide Tailored;
    var eps := Flat(alts);
    var cands := Refuting(eps, k);
    RefutingSuits(eps, k);
    WalkInOrder(cands, eps);
    FlatWalk(cands, Blank(cands), alts);
    FlatFresh(alts);
    TailoredIsTight(shown, eps[k], eps[m]);
    assert cands[Before(eps, k)] == Tailored(eps[k]);
  }

  ghost predicate AlwaysSupported(shown: bool, alts: seq<Alt>) {
    forall cands :: Remap(cands, alts).Done? ==> AllSupported(shown, cands, Remap(cands, alts).book.chosen, Flat(alts))
  }

  /** Whatever the UDC offers, a successful remap supports every endpoint, exactly when at
      each device address the later endpoints have the type of the first and no larger
      packet. Judged as the host sees them, isochronous packets may grow. (A configuration
      in which a first endpoint is a control endpoint is refused by every UDC.) */
  lemma SupportedExactly(shown: bool, alts: seq<Alt>)
    requires Fresh(alts)
    ensures AlwaysSupported(shown, alts) <==> FirstsCover(shown, Flat(alts)) || !NoControl(Flat(alts))
  {
    hide Remap;
    hide AllSupported;
    hide Flat;
    hide First;
    hide Covers;
    if FirstsCover(shown, Flat(alts)) || !NoControl(Flat(alts)) {
      forall cands | Remap(cands, alts).Done?
        ensures AllSupported(shown, cands, Remap(cands, alts).book.chosen, Flat(alts))
      {
        ControlIsRefused(cands, alts);
        CoveredAreSupported(shown, cands, alts);
      }
    } else {
      var k, m :| 0 <= k < m < |Flat(alts)| && First(Flat(alts), k) && Flat(alts)[m].device == Flat(alts)[k].device
                  && !Covers(shown, Flat(alts)[k], Flat(alts)[m]);
      RefutingRefutes(shown, alts, k, m);
    }
  }

  lemma ControlIsRefused(cands: seq<Candidate>, alts: seq<Alt>)
    requires Remap(cands, alts).Done?
    ensures NoControl(Flat(alts))
  {
    hide Remap;
    hide Flat;
    hide First;
    RemapChecksFirsts(cands, alts);
  }
}
