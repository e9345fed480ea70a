/** How sharp the conditions of RemapLaws are: every ambiguous list of candidates can be made
    to collide, and endpoints that ask for the same thing are remapped exactly when there
    are candidates for all their addresses. */
module RemapTightness {
  import opened Bytes
  import opened EndpointRemap
  import opened EndpointSupport
  import opened RemapLaws

  /** USB_RAW_EPS_NUM_MAX of raw-gadget. */
  const EPS_NUM_MAX: nat := 30

  // ------------------------------------------------------------ forcing two candidates

  function Plain(d: byte, kind: nat): Endpoint
    requires kind < 4
  {
    Endpoint(d, d, kind, 0, 0, 0)
  }

  predicate Offers(c: Candidate, dirIn: bool, kind: nat) {
    && (if dirIn then c.dirIn else c.dirOut)
    && (if kind == XFER_ISOC then c.iso else if kind == XFER_BULK then c.bulk else kind == XFER_INT && c.intr)
  }

  lemma OffersIsSupports(c: Candidate, d: byte, kind: nat)
    requires kind < 4
    ensures Supports(c, Plain(d, kind)) <==> Offers(c, d >= DIR_IN, kind)
  {
  }

  /** The stock of device addresses in one direction: one for each candidate index, from one
      of two windows. */
  datatype Stock = Stock(dirIn: bool, late: bool)

  function Filler(s: Stock, i: nat): byte
    requires i < EPS_NUM_MAX
  {
    (if s.dirIn then DIR_IN else 0) + (if s.late then 40 else 0) + i
  }

  predicate Spare(s: Stock, d: byte) {
    && (d >= DIR_IN <==> s.dirIn)
    && forall i :: 0 <= i < EPS_NUM_MAX ==> Filler(s, i) != d
  }

  predicate Stocked(s: Stock, b: Book) {
    |b.used| <= EPS_NUM_MAX && forall i :: 0 <= i < |b.used| && !b.used[i] ==> Filler(s, i) !in b.chosen
  }

  predicate Taken(cands: seq<Candidate>, used: seq<bool>, dirIn: bool, kind: nat, k: nat)
    requires |used| == |cands| && k <= |cands|
  {
    forall x :: 0 <= x < k ==> used[x] || !Offers(cands[x], dirIn, kind)
  }

  /** One new address takes the first unused candidate that offers the type. */
  lemma TakesFirst(cands: seq<Candidate>, b: Book, d: byte, kind: nat, i: nat)
    requires BookFits(cands, b) && kind < 4 && i < |cands| && d !in b.chosen
    requires !b.used[i] && Offers(cands[i], d >= DIR_IN, kind) && Taken(cands, b.used, d >= DIR_IN, kind, i)
    ensures var r := RemapEndpoint(cands, b, Plain(d, kind));
            r.Done? && r.book == Book(b.used[i := true], b.chosen[d := i])
    ensures var r := RemapEndpoints(cands, b, [Plain(d, kind)]);
            r.Done? && r.book == Book(b.used[i := true], b.chosen[d := i])
  {
    hide Offers;
    hide Supports;
    hide Assigned;
    forall c ensures Supports(c, Plain(d, kind)) <==> Offers(c, d >= DIR_IN, kind) {
      OffersIsSupports(c, d, kind);
    }
    assert FirstFit(cands, b.used, Plain(d, kind), i);
    FirstFitIsFirst(cands, b.used, Plain(d, kind), i);
    var eps := [Plain(d, kind)];
    assert eps[..0] == [];
    assert RemapEndpoints(cands, b, eps[..0]) == Done([], b);
  }

  /** What a forcing list leaves: d on candidate i, nothing else but fillers, and the
      candidates after i as they were. */
  predicate ForcedBook(s: Stock, was: Book, now: Book, i: nat, d: byte) {
    && |now.used| == |was.used| && Stocked(s, now) && Extends(was.chosen, now.chosen)
    && d in now.chosen && now.chosen[d] == i
    && (forall x :: i < x < |was.used| ==> now.used[x] == was.used[x])
    && forall e :: e in now.chosen ==> e in was.chosen || e == d || !Spare(s, e)
  }

  predicate Forced(s: Stock, cands: seq<Candidate>, b: Book, eps: seq<Endpoint>, kind: nat, i: nat, d: byte)
    requires BookFits(cands, b) && kind < 4
  {
    var r := RemapEndpoints(cands, b, eps);
    && r.Done? && FreshList(eps) && eps != [] && eps[|eps| - 1] == Plain(d, kind)
    && ForcedBook(s, b, r.book, i, d)
  }

  lemma ForcedAtOnce(s: Stock, cands: seq<Candidate>, b: Book, kind: nat, i: nat, d: byte)
    requires BookFits(cands, b) && kind < 4 && i < |cands| && Stocked(s, b) && Spare(s, d) && d !in b.chosen
    requires var r := RemapEndpoints(cands, b, [Plain(d, kind)]);
             r.Done? && r.book == Book(b.used[i := true], b.chosen[d := i])
    ensures Forced(s, cands, b, [Plain(d, kind)], kind, i, d)
  {
    hide RemapEndpoints;
  }

  /** Fillers take every candidate before i that would be tried first. */
  lemma {:induction false} Force(s: Stock, cands: seq<Candidate>, b: Book, kind: nat, k: nat, i: nat, d: byte)
    returns (eps: seq<Endpoint>)
    requires BookFits(cands, b) && kind < 4 && k <= i < |cands| && Stocked(s, b)
    requires !b.used[i] && Offers(cands[i], s.dirIn, kind) && Taken(cands, b.used, s.dirIn, kind, k)
    requires Spare(s, d) && d !in b.chosen
    ensures Forced(s, cands, b, eps, kind, i, d)
    decreases i - k
  {
    assert |b.used| == |cands|;
    hide Offers;
    hide BookFits;
    hide RemapEndpoints;
    hide RemapEndpoint;
    hide Chained;
    hide Forced;
    hide Stocked;
    if k == i {
      eps := [Plain(d, kind)];
      TakesFirst(cands, b, d, kind, i);
      ForcedAtOnce(s, cands, b, kind, i, d);
    } else if b.used[k] || !Offers(cands[k], s.dirIn, kind) {
      eps := Force(s, cands, b, kind, k + 1, i, d);
    } else {
      var f := Filler(s, k);
      TakesFirst(cands, b, f, kind, k);
      var one := RemapEndpoints(cands, b, [Plain(f, kind)]);
      StockedOn(s, b, k);
      var rest := Force(s, cands, one.book, kind, k + 1, i, d);
      assert RemapEndpoints(cands, one.book, rest).Done? by { ForcedDone(s, cands, one.book, rest, kind, i, d); }
      assert f !in b.chosen by { StockFree(s, b, k); }
      WalkAppends(cands, b, [Plain(f, kind)], rest);
      eps := [Plain(f, kind)] + rest;
      ChainedBook(cands, b, [Plain(f, kind)], rest);
      ForcedOn(s, cands, b, kind, k, i, d, one.book, rest);
    }
  }

  lemma ChainedBook(cands: seq<Candidate>, b: Book, xs: seq<Endpoint>, ys: seq<Endpoint>)
    requires BookFits(cands, b) && RemapEndpoints(cands, b, xs).Done?
    requires RemapEndpoints(cands, RemapEndpoints(cands, b, xs).book, ys).Done?
    ensures var r := Chained(cands, b, xs, ys);
            r.Done? && r.book == RemapEndpoints(cands, RemapEndpoints(cands, b, xs).book, ys).book
  {
    hide RemapEndpoints;
  }

  lemma ForcedDone(s: Stock, cands: seq<Candidate>, b: Book, eps: seq<Endpoint>, kind: nat, i: nat, d: byte)
    requires BookFits(cands, b) && kind < 4 && Forced(s, cands, b, eps, kind, i, d)
    ensures RemapEndpoints(cands, b, eps).Done?
  {
  }

  lemma StockFree(s: Stock, b: Book, k: nat)
    requires Stocked(s, b) && k < |b.used| && !b.used[k]
    ensures Filler(s, k) !in b.chosen
  {
  }

  lemma FillerNotSpare(s: Stock, k: nat)
    requires k < EPS_NUM_MAX
    ensures !Spare(s, Filler(s, k))
  {
  }

  lemma StockedOn(s: Stock, b: Book, k: nat)
    requires Stocked(s, b) && k < |b.used|
    ensures Stocked(s, Book(b.used[k := true], b.chosen[Filler(s, k) := k]))
  {
  }

  lemma ForcedBookOn(s: Stock, b: Book, now: Book, k: nat, i: nat, d: byte)
    requires k < i && k < |b.used| <= EPS_NUM_MAX && Filler(s, k) !in b.chosen
    requires ForcedBook(s, Book(b.used[k := true], b.chosen[Filler(s, k) := k]), now, i, d)
    ensures ForcedBook(s, b, now, i, d)
  {
    hide Stocked;
    hide Spare;
    hide Filler;
    FillerNotSpare(s, k);
  }

  lemma ForcedOn(s: Stock, cands: seq<Candidate>, b: Book, kind: nat, k: nat, i: nat, d: byte, b1: Book, rest: seq<Endpoint>)
    requires BookFits(cands, b) && kind < 4 && k < i < |cands| <= EPS_NUM_MAX
    requires b1 == Book(b.used[k := true], b.chosen[Filler(s, k) := k]) && Filler(s, k) !in b.chosen
    requires BookFits(cands, b1) && Forced(s, cands, b1, rest, kind, i, d)
    requires var r := RemapEndpoints(cands, b, [Plain(Filler(s, k), kind)] + rest);
             r.Done? && r.book == RemapEndpoints(cands, b1, rest).book
    ensures Forced(s, cands, b, [Plain(Filler(s, k), kind)] + rest, kind, i, d)
  {
    hide RemapEndpoints;
    hide ForcedBook;
    hide Filler;
    ForcedBookOn(s, b, RemapEndpoints(cands, b1, rest).book, k, i, d);
    var one := Plain(Filler(s, k), kind);
    var eps := [one] + rest;
    assert eps[|eps| - 1] == rest[|rest| - 1];
    assert FreshList(eps);
  }

  /** Host addresses of a remapped configuration tell device addresses apart. */
  predicate HostsIdentify(alts: seq<Alt>) {
    forall j, k, l, m :: 0 <= j < |alts| && 0 <= k < |alts[j].endpoints| && 0 <= l < |alts| && 0 <= m < |alts[l].endpoints|
      && alts[j].endpoints[k].address == alts[l].endpoints[m].address
      ==> alts[j].endpoints[k].device == alts[l].endpoints[m].device
  }

  ghost predicate AlwaysIdentify(cands: seq<Candidate>) {
    forall alts :: Fresh(alts) && Remap(cands, alts).Done? ==> HostsIdentify(Remap(cands, alts).value)
  }

  /** Two addresses outside some stock that two indistinguishable candidates show alike. */
  lemma Colliding(c: Candidate, g: Candidate, dirIn: bool) returns (s: Stock, d: byte, e: byte)
    requires !Distinguished(c, g)
    ensures s.dirIn == dirIn && Spare(s, d) && Spare(s, e) && d != e
    ensures HostAddress(c, d, dirIn) == HostAddress(g, e, dirIn)
  {
    var base := if dirIn then DIR_IN else 0;
    d, e := base + 100, base + 101;
    if c.addr == ADDR_ANY {
      d := HostAddress(g, e, dirIn);
      e := if d == base + 100 then base + 101 else base + 100;
    } else if g.addr == ADDR_ANY {
      e := HostAddress(c, d, dirIn);
      d := if e == base + 100 then base + 101 else base + 100;
    }
    s := Stock(dirIn, d < base + 40 || e < base + 40);
  }

  /** Two lists in one altsetting are remapped one after the other. */
  lemma PairRemaps(cands: seq<Candidate>, xs: seq<Endpoint>, ys: seq<Endpoint>, alts: seq<Alt>)
    requires alts == [Alt(0, 0, 0, 0, xs + ys)]
    requires var r := RemapEndpoints(cands, Blank(cands), xs); r.Done? && RemapEndpoints(cands, r.book, ys).Done?
    ensures var r := RemapEndpoints(cands, Blank(cands), xs);
            Remap(cands, alts).Done? && Remap(cands, alts).book == RemapEndpoints(cands, r.book, ys).book
  {
    hide RemapEndpoints;
    hide RemapAlts;
    assert Flat(alts) == xs + ys by {
      assert alts[..0] == [];
      assert [] + (xs + ys) == xs + ys;
    }
    WalkAppends(cands, Blank(cands), xs, ys);
    FlatWalk(cands, Blank(cands), alts);
  }

  lemma ShownAs(cands: seq<Candidate>, chosen: map<byte, nat>, d: byte, kind: nat, now: Endpoint)
    requires kind < 4 && ServedBy(cands, chosen, Plain(d, kind), now)
    ensures now.device == d && now.address == HostAddress(cands[chosen[d]], d, d >= DIR_IN)
  {
    hide HostAddress;
  }

  /** The two forced lists as one altsetting. */
  lemma TwoForced(s: Stock, cands: seq<Candidate>, xs: seq<Endpoint>, ys: seq<Endpoint>, p: nat, q: nat, i: nat, j: nat, d: byte, e: byte)
    returns (alts: seq<Alt>)
    requires p < 4 && q < 4 && i < |cands| && j < |cands| && d != e
    requires (d >= DIR_IN <==> s.dirIn) && (e >= DIR_IN <==> s.dirIn)
    requires HostAddress(cands[i], d, s.dirIn) == HostAddress(cands[j], e, s.dirIn)
    requires Forced(s, cands, Blank(cands), xs, p, i, d)
    requires Forced(s, cands, RemapEndpoints(cands, Blank(cands), xs).book, ys, q, j, e)
    ensures Fresh(alts) && Remap(cands, alts).Done? && !HostsIdentify(Remap(cands, alts).value)
  {
    hide RemapEndpoints;
    hide Remap;
    hide HostAddress;
    hide Stocked;
    hide Spare;
    hide ServedBy;
    var eps := xs + ys;
    alts := [Alt(0, 0, 0, 0, eps)];
    PairRemaps(cands, xs, ys, alts);
    var k, m := |xs| - 1, |eps| - 1;
    assert eps[k] == Plain(d, p) && eps[m] == Plain(e, q);
    assert Fresh(alts);
    OneServed(cands, alts, k);
    OneServed(cands, alts, m);
    hide FreshList;
    hide Fresh;
    var r := Remap(cands, alts);
    ShownAs(cands, r.book.chosen, d, p, r.value[0].endpoints[k]);
    ShownAs(cands, r.book.chosen, e, q, r.value[0].endpoints[m]);
  }

  lemma OneServed(cands: seq<Candidate>, alts: seq<Alt>, k: nat)
    requires Fresh(alts) && |alts| == 1 && k < |alts[0].endpoints| && Remap(cands, alts).Done?
    ensures var r := Remap(cands, alts);
            && |r.value| == 1 && |r.value[0].endpoints| == |alts[0].endpoints|
            && ServedBy(cands, r.book.chosen, alts[0].endpoints[k], r.value[0].endpoints[k])
  {
    hide Remap;
    RemapServes(cands, alts);
  }

  lemma KindOf(c: Candidate, dirIn: bool) returns (kind: nat)
    requires Usable(c) && if dirIn then c.dirIn else c.dirOut
    ensures kind < 4 && Offers(c, dirIn, kind)
  {
    kind := if c.iso then XFER_ISOC else if c.bulk then XFER_BULK else XFER_INT;
  }

  lemma AmbiguousCollides(cands: seq<Candidate>, i: nat, j: nat) returns (alts: seq<Alt>)
    requires |cands| <= EPS_NUM_MAX && i < j < |cands|
    requires Usable(cands[i]) && Usable(cands[j]) && SharesDirection(cands[i], cands[j]) && !Distinguished(cands[i], cands[j])
    ensures Fresh(alts) && Remap(cands, alts).Done? && !HostsIdentify(Remap(cands, alts).value)
  {
    hide Offers;
    hide Distinguished;
    hide HostAddress;
    hide Usable;
    hide RemapEndpoints;
    var dirIn := cands[i].dirIn && cands[j].dirIn;
    var s, d, e := Colliding(cands[i], cands[j], dirIn);
    var p := KindOf(cands[i], dirIn);
    var q := KindOf(cands[j], dirIn);
    var b := Blank(cands);
    var xs := Force(s, cands, b, p, 0, i, d);
    var b1 := RemapEndpoints(cands, b, xs).book;
    var ys := Force(s, cands, b1, q, 0, j, e);
    alts := TwoForced(s, cands, xs, ys, p, q, i, j, d, e);
  }

  /** Host addresses identify device addresses in whatever configuration is remapped,
      exactly when the candidates are unambiguous. */
  lemma IdentifyExactly(cands: seq<Candidate>)
    requires |cands| <= EPS_NUM_MAX
    ensures AlwaysIdentify(cands) <==> Unambiguous(cands)
  {
    hide Remap;
    hide Distinguished;
    hide Usable;
    hide SharesDirection;
    if Unambiguous(cands) {
      forall alts | Fresh(alts) && Remap(cands, alts).Done?
        ensures HostsIdentify(Remap(cands, alts).value)
      {
        Identified(cands, alts);
      }
    } else {
      var i, j :| 0 <= i < j < |cands| && Usable(cands[i]) && Usable(cands[j]) && SharesDirection(cands[i], cands[j])
                  && !Distinguished(cands[i], cands[j]);
      var alts := AmbiguousCollides(cands, i, j);
      assert Fresh(alts);
    }
  }

  lemma Identified(cands: seq<Candidate>, alts: seq<Alt>)
    requires Unambiguous(cands) && Fresh(alts) && Remap(cands, alts).Done?
    ensures HostsIdentify(Remap(cands, alts).value)
  {
    hide Remap;
    hide Unambiguous;
    RemapServes(cands, alts);
    var now := Remap(cands, alts).value;
    forall j, k, l, m | 0 <= j < |now| && 0 <= k < |now[j].endpoints| && 0 <= l < |now| && 0 <= m < |now[l].endpoints|
      && now[j].endpoints[k].address == now[l].endpoints[m].address
      ensures now[j].endpoints[k].device == now[l].endpoints[m].device
    {
      assert AllServed(cands, Remap(cands, alts).book.chosen, alts[j].endpoints, now[j].endpoints);
      assert AllServed(cands, Remap(cands, alts).book.chosen, alts[l].endpoints, now[l].endpoints);
      HostIdentifiesDevice(cands, alts, j, k, l, m);
    }
  }

  // ------------------------------------------------------------ enough candidates

  lemma {:induction false} InjectionSize(chosen: map<byte, nat>, s: set<byte>, t: set<nat>)
    requires Injective(chosen) && s <= chosen.Keys && forall d <- s :: chosen[d] in t
    ensures |s| <= |t|
    decreases |s|
  {
    if s != {} {
      var d :| d in s;
      InjectionSize(chosen, s - {d}, t - {chosen[d]});
    }
  }

  /** Any set of addresses needs as many candidates between them as it has addresses. */
  lemma SuccessNeeds(cands: seq<Candidate>, alts: seq<Alt>, s: set<byte>, t: set<nat>)
    requires Fresh(alts) && Remap(cands, alts).Done? && s <= DeviceSet(Flat(alts))
    requires var eps := Flat(alts);
             forall k :: 0 <= k < |eps| && First(eps, k) && eps[k].device in s ==> Supporting(cands, eps[k]) <= t
    ensures |s| <= |t|
  {
    hide Remap;
    hide Supports;
    hide Flat;
    hide First;
    RemapServes(cands, alts);
    RemapChecksFirsts(cands, alts);
    var eps, chosen := Flat(alts), Remap(cands, alts).book.chosen;
    forall d <- s ensures chosen[d] in t {
      var m :| 0 <= m < |eps| && eps[m].device == d;
      var k := FirstExists(eps, m);
      assert chosen[d] in Supporting(cands, eps[k]);
    }
    InjectionSize(chosen, s, t);
  }

  /** Every endpoint asks for what ep asks for. */
  predicate Alike(eps: seq<Endpoint>, ep: Endpoint) {
    forall k :: 0 <= k < |eps| ==> eps[k].In() == ep.In() && eps[k].Type() == ep.Type() && eps[k].MaxP() == ep.MaxP()
  }

  lemma AlikeSupporting(cands: seq<Candidate>, a: Endpoint, b: Endpoint)
    requires a.In() == b.In() && a.Type() == b.Type() && a.MaxP() == b.MaxP()
    ensures Supporting(cands, a) == Supporting(cands, b)
  {
  }

  /** Endpoints that ask for the same thing are remapped exactly when as many candidates
      support it as they have addresses: the count of EnoughCandidatesSuffice is sharp. */
  lemma AlikeExactly(cands: seq<Candidate>, alts: seq<Alt>, ep: Endpoint)
    requires Fresh(alts) && Alike(Flat(alts), ep)
    ensures Remap(cands, alts).Done? <==> |DeviceSet(Flat(alts))| <= |Supporting(cands, ep)|
  {
    hide RemapEndpoints;
    hide RemapAlts;
    hide Supporting;
    hide Flat;
    hide First;
    var eps := Flat(alts);
    forall k | 0 <= k < |eps|
      ensures Supporting(cands, eps[k]) == Supporting(cands, ep)
    {
      AlikeSupporting(cands, eps[k], ep);
    }
    if Remap(cands, alts).Done? {
      SuccessNeeds(cands, alts, DeviceSet(eps), Supporting(cands, ep));
    }
    if |DeviceSet(eps)| <= |Supporting(cands, ep)| {
      assert UsedSet(Blank(cands).used) == {};
      EndpointsSucceed(cands, Blank(cands), DeviceSet(eps), eps);
      FlatWalk(cands, Blank(cands), alts);
    }
  }
}
