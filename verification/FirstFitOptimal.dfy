/** When first fit is as good as any assignment: exactly when, among candidates that could
    compete for an endpoint, the narrower ones come first. */
module FirstFitOptimal {
  import opened Bytes
  import opened EndpointRemap
  import opened EndpointSupport
  import opened RemapLaws
  import opened RemapTightness

  /** Each device address has a candidate of its own that supports its first endpoint. */
  predicate Assignment(cands: seq<Candidate>, eps: seq<Endpoint>, f: map<byte, nat>) {
    FirstsSupported(cands, f, eps) && Injective(f)
  }

  ghost predicate Assignable(cands: seq<Candidate>, eps: seq<Endpoint>) {
    exists f :: Assignment(cands, eps, f)
  }

  /** First fit finds an assignment wherever there is one. */
  ghost predicate NeverMisses(cands: seq<Candidate>) {
    forall alts :: Fresh(alts) && Assignable(cands, Flat(alts)) ==> Remap(cands, alts).Done?
  }

  /** The endpoint numbers of a device lie between 1 and top; USB 2.0 has 15 of them. */
  predicate Numbered(eps: seq<Endpoint>, top: nat) {
    forall k :: 0 <= k < |eps| ==> 1 <= eps[k].device % DIR_IN <= top
  }

  /** It does so on every device with proper endpoint numbers. */
  ghost predicate NeverMissesNumbered(cands: seq<Candidate>) {
    forall alts :: Fresh(alts) && Numbered(Flat(alts), 15) && Assignable(cands, Flat(alts)) ==> Remap(cands, alts).Done?
  }

  predicate SharesType(c: Candidate, d: Candidate) {
    (c.iso && d.iso) || (c.bulk && d.bulk) || (c.intr && d.intr)
  }

  /** d supports whatever c supports: its directions, its types, its packets. A limit of
      zero, or beyond the largest packet size, is none. */
  predicate Within(c: Candidate, d: Candidate) {
    && (c.dirIn ==> d.dirIn) && (c.dirOut ==> d.dirOut)
    && (c.iso ==> d.iso) && (c.bulk ==> d.bulk) && (c.intr ==> d.intr)
    && (d.limit == 0 || d.limit >= 0x7ff || 0 < c.limit <= d.limit)
  }

  predicate Compete(c: Candidate, d: Candidate) {
    SharesDirection(c, d) && SharesType(c, d)
  }

  predicate NarrowFirst(cands: seq<Candidate>) {
    forall i, j :: 0 <= i < j < |cands| && Compete(cands[i], cands[j]) ==> Within(cands[i], cands[j])
  }

  lemma SupportersCompete(c: Candidate, d: Candidate, ep: Endpoint)
    requires Supports(c, ep) && Supports(d, ep)
    ensures Compete(c, d)
  {
  }

  lemma WithinSupports(c: Candidate, d: Candidate, ep: Endpoint)
    requires Within(c, d) && Supports(c, ep)
    ensures Supports(d, ep)
  {
  }

  // ------------------------------------------------------------ narrow first is enough

  predicate Takes(b: Book, x: nat) {
    exists d :: d in b.chosen && b.chosen[d] == x
  }

  predicate UsedIsImage(b: Book) {
    forall x :: 0 <= x < |b.used| && b.used[x] ==> Takes(b, x)
  }

  lemma TakesOneMore(b: Book, d: byte, i: nat)
    requires UsedIsImage(b) && i < |b.used| && d !in b.chosen
    ensures UsedIsImage(Book(b.used[i := true], b.chosen[d := i]))
  {
    var n := Book(b.used[i := true], b.chosen[d := i]);
    forall x | 0 <= x < |n.used| && n.used[x] ensures Takes(n, x) {
      if x == i {
        assert n.chosen[d] == x;
      } else {
        assert Takes(b, x);
        var e :| e in b.chosen && b.chosen[e] == x;
        assert n.chosen[e] == x;
      }
    }
  }

  /** Giving d the earlier candidate i, and whoever had i the one d had. */
  function Exchanged(f: map<byte, nat>, d: byte, i: nat): map<byte, nat>
    requires d in f
  {
    map e | e in f :: if e == d then i else if f[e] == i then f[d] else f[e]
  }

  lemma ExchangedInjective(f: map<byte, nat>, d: byte, i: nat)
    requires Injective(f) && d in f
    ensures Injective(Exchanged(f, d, i))
  {
  }

  lemma Exchange(cands: seq<Candidate>, eps: seq<Endpoint>, f: map<byte, nat>, k: nat, i: nat)
    returns (g: map<byte, nat>)
    requires NarrowFirst(cands) && Assignment(cands, eps, f) && k < |eps| && First(eps, k) && eps[k].device in f
    requires i < f[eps[k].device] && Supports(cands[i], eps[k])
    ensures Assignment(cands, eps, g) && eps[k].device in g && g[eps[k].device] == i
    ensures forall e :: e in f && e != eps[k].device && f[e] != i ==> e in g && g[e] == f[e]
  {
    hide Supports;
    hide DeviceSet;
    hide NarrowFirst;
    hide Injective;
    hide Within;
    var d := eps[k].device;
    var j := f[d];
    g := Exchanged(f, d, i);
    assert g.Keys == f.Keys;
    ExchangedInjective(f, d, i);
    Narrower(cands, i, j, eps[k]);
    forall m | 0 <= m < |eps| && First(eps, m) ensures Supports(cands[g[eps[m].device]], eps[m]) {
      if f[eps[m].device] == i {
        WithinSupports(cands[i], cands[j], eps[m]);
      }
    }
  }

  lemma Narrower(cands: seq<Candidate>, i: nat, j: nat, ep: Endpoint)
    requires NarrowFirst(cands) && i < j < |cands| && Supports(cands[i], ep) && Supports(cands[j], ep)
    ensures Within(cands[i], cands[j])
  {
    hide Within;
    SupportersCompete(cands[i], cands[j], ep);
  }

  predicate Completable(cands: seq<Candidate>, b: Book, eps: seq<Endpoint>, k: nat, f: map<byte, nat>)
    requires k <= |eps|
  {
    && BookFits(cands, b) && UsedIsImage(b) && b.chosen.Keys == DeviceSet(eps[..k])
    && Assignment(cands, eps, f) && Extends(b.chosen, f)
  }

  /** One endpoint of the walk keeps some assignment within reach. */
  lemma OptimalStep(cands: seq<Candidate>, b: Book, eps: seq<Endpoint>, k: nat, f: map<byte, nat>)
    returns (g: map<byte, nat>)
    requires NarrowFirst(cands) && k < |eps| && Completable(cands, b, eps, k, f)
    ensures var r := RemapEndpoint(cands, b, eps[k]); r.Done? && Completable(cands, r.book, eps, k + 1, g)
  {
    hide Supports;
    hide DeviceSet;
    hide NarrowFirst;
    hide Assigned;
    hide FirstFrom;
    hide Takes;
    var d := eps[k].device;
    g := f;
    assert eps[..k + 1][..k] == eps[..k];
    DeviceSetStep(eps[..k + 1]);
    if d !in b.chosen {
      assert First(eps, k) by { Unseen(eps, k); }
      var j, i := f[d], FirstFrom(cands, b.used, eps[k], 0);
      StillFree(b, f, d);
      assert Supports(cands[j], eps[k]);
      assert i <= j;
      TakesOneMore(b, d, i);
      if i < j {
        g := Exchange(cands, eps, f, k, i);
      }
    }
  }

  lemma Unseen(eps: seq<Endpoint>, k: nat)
    requires k < |eps| && eps[k].device !in DeviceSet(eps[..k])
    ensures First(eps, k)
  {
    forall i | 0 <= i < k ensures eps[i].device != eps[k].device {
      assert eps[..k][i].device in DeviceSet(eps[..k]);
    }
  }

  lemma StillFree(b: Book, f: map<byte, nat>, d: byte)
    requires UsedIsImage(b) && Injective(f) && Extends(b.chosen, f) && d in f && d !in b.chosen && f[d] < |b.used|
    ensures !b.used[f[d]]
  {
    assert b.used[f[d]] ==> Takes(b, f[d]);
  }

  lemma {:induction false} OptimalWalk(cands: seq<Candidate>, eps: seq<Endpoint>, f: map<byte, nat>, k: nat)
    returns (g: map<byte, nat>)
    requires NarrowFirst(cands) && Assignment(cands, eps, f) && k <= |eps|
    ensures var r := RemapEndpoints(cands, Blank(cands), eps[..k]); r.Done? && Completable(cands, r.book, eps, k, g)
    decreases k
  {
    hide RemapEndpoint;
    hide Assignment;
    hide NarrowFirst;
    hide BookFits;
    hide UsedIsImage;
    if k == 0 {
      g := f;
      BlankStart(cands);
      NoDevices(eps[..0]);
    } else {
      g := OptimalWalk(cands, eps, f, k - 1);
      assert eps[..k][..k - 1] == eps[..k - 1];
      g := OptimalStep(cands, RemapEndpoints(cands, Blank(cands), eps[..k - 1]).book, eps, k - 1, g);
    }
  }

  lemma BlankStart(cands: seq<Candidate>)
    ensures BookFits(cands, Blank(cands)) && UsedIsImage(Blank(cands))
  {
  }

  lemma NarrowFirstSuffices(cands: seq<Candidate>, alts: seq<Alt>)
    requires NarrowFirst(cands) && Assignable(cands, Flat(alts))
    ensures Remap(cands, alts).Done?
  {
    hide Assignment;
    hide NarrowFirst;
    hide RemapEndpoints;
    hide Flat;
    var eps := Flat(alts);
    var f :| Assignment(cands, eps, f);
    var g := OptimalWalk(cands, eps, f, |eps|);
    assert eps[..|eps|] == eps;
    FlatWalk(cands, Blank(cands), alts);
  }

  /** No remap succeeds without an assignment. */
  lemma DoneIsAssignable(cands: seq<Candidate>, alts: seq<Alt>)
    requires Fresh(alts) && Remap(cands, alts).Done?
    ensures Assignable(cands, Flat(alts))
  {
    hide Remap;
    hide Flat;
    hide FirstsSupported;
    RemapServes(cands, alts);
    RemapChecksFirsts(cands, alts);
    assert Assignment(cands, Flat(alts), Remap(cands, alts).book.chosen);
  }

  // ------------------------------------------------------------ a configuration that is missed

  /** What an endpoint asks for. */
  datatype Demand = Demand(dirIn: bool, kind: nat, size: nat)
  {
    predicate Real() { 1 <= kind <= 3 && size < 0x800 }
  }

  /** Its endpoint number is one more than i. */
  function Asking(w: Demand, i: nat): Endpoint
    requires w.Real() && i < EPS_NUM_MAX
  {
    var d := (if w.dirIn then DIR_IN else 0) + i + 1;
    Endpoint(d, d, w.kind, w.size, 0, 0)
  }

  predicate Meets(c: Candidate, w: Demand) {
    Offers(c, w.dirIn, w.kind) && (c.limit == 0 || w.size <= c.limit)
  }

  lemma MeetsIsSupports(c: Candidate, w: Demand, i: nat)
    requires w.Real() && i < EPS_NUM_MAX
    ensures Supports(c, Asking(w, i)) <==> Meets(c, w)
  {
  }

  function Meeting(cands: seq<Candidate>, w: Demand): set<nat> {
    set x | 0 <= x < |cands| && Meets(cands[x], w)
  }

  /** One endpoint for each candidate of t below n, addressed by its index. */
  function Listed(w: Demand, t: set<nat>, n: nat): seq<Endpoint>
    requires w.Real() && n <= EPS_NUM_MAX
  {
    if n == 0 then []
    else Listed(w, t, n - 1) + if n - 1 in t then [Asking(w, n - 1)] else []
  }

  function Below(t: set<nat>, n: nat): set<nat> {
    set x | x in t && x < n
  }

  lemma {:induction false} ListedAre(w: Demand, t: set<nat>, n: nat, k: nat) returns (x: nat)
    requires w.Real() && n <= EPS_NUM_MAX && k < |Listed(w, t, n)|
    ensures x in t && x < n && Listed(w, t, n)[k] == Asking(w, x)
    decreases n
  {
    hide Asking;
    if k < |Listed(w, t, n - 1)| {
      x := ListedAre(w, t, n - 1, k);
    } else {
      x := n - 1;
    }
  }

  lemma NewAddress(w: Demand, t: set<nat>, n: nat)
    requires w.Real() && n < EPS_NUM_MAX
    ensures Asking(w, n).device !in DeviceSet(Listed(w, t, n))
  {
    hide DeviceSet;
    hide Listed;
    if Asking(w, n).device in DeviceSet(Listed(w, t, n)) {
      var k := DeviceListed(Listed(w, t, n), Asking(w, n).device);
      var x := ListedAre(w, t, n, k);
      assert false;
    }
  }

  lemma {:induction false} ListedCount(w: Demand, t: set<nat>, n: nat)
    requires w.Real() && n <= EPS_NUM_MAX
    ensures |DeviceSet(Listed(w, t, n))| == |Below(t, n)|
    decreases n
  {
    hide DeviceSet;
    hide Asking;
    if n == 0 {
      NoDevices(Listed(w, t, n));
      assert Below(t, 0) == {};
    } else {
      ListedCount(w, t, n - 1);
      var was, now := Listed(w, t, n - 1), Listed(w, t, n);
      if n - 1 in t {
        assert Below(t, n) == Below(t, n - 1) + {n - 1};
        assert now[..|now| - 1] == was;
        DeviceSetStep(now);
        NewAddress(w, t, n - 1);
      } else {
        assert Below(t, n) == Below(t, n - 1);
        assert now == was;
      }
    }
  }

  lemma DeviceListed(eps: seq<Endpoint>, d: byte) returns (k: nat)
    requires d in DeviceSet(eps)
    ensures k < |eps| && eps[k].device == d
  {
    var e :| e in eps && e.device == d;
    k :| 0 <= k < |eps| && eps[k] == e;
  }

  /** v for the candidates that meet v and not w, then w for all that meet w. */
  function Missed(cands: seq<Candidate>, v: Demand, w: Demand): seq<Endpoint>
    requires v.Real() && w.Real() && |cands| <= EPS_NUM_MAX
  {
    Listed(v, Meeting(cands, v) - Meeting(cands, w), |cands|) + Listed(w, Meeting(cands, w), |cands|)
  }

  /** Every endpoint of it asks for v or w, under the index of a candidate that meets it. */
  lemma MissedAre(cands: seq<Candidate>, v: Demand, w: Demand, k: nat) returns (late: bool, x: nat)
    requires v.Real() && w.Real() && |cands| <= EPS_NUM_MAX && k < |Missed(cands, v, w)|
    ensures x < |cands| && (late <==> x in Meeting(cands, w)) && (!late ==> x in Meeting(cands, v))
    ensures Missed(cands, v, w)[k] == if late then Asking(w, x) else Asking(v, x)
    ensures late <==> k >= |Listed(v, Meeting(cands, v) - Meeting(cands, w), |cands|)|
  {
    hide Asking;
    hide Meeting;
    hide Listed;
    var n := |Listed(v, Meeting(cands, v) - Meeting(cands, w), |cands|)|;
    late := k >= n;
    if late {
      x := ListedAre(w, Meeting(cands, w), |cands|, k - n);
    } else {
      x := ListedAre(v, Meeting(cands, v) - Meeting(cands, w), |cands|, k);
    }
  }

  /** The candidate index in an address. */
  function IndexOf(d: byte): nat { if d % DIR_IN == 0 then 0 else d % DIR_IN - 1 }

  lemma IndexOfAsking(w: Demand, x: nat)
    requires w.Real() && x < EPS_NUM_MAX
    ensures IndexOf(Asking(w, x).device) == x
  {
  }

  lemma MissedAssignable(cands: seq<Candidate>, v: Demand, w: Demand)
    requires v.Real() && w.Real() && |cands| <= EPS_NUM_MAX
    ensures Assignable(cands, Missed(cands, v, w))
  {
    hide Asking;
    hide Missed;
    hide DeviceSet;
    hide IndexOf;
    hide Supports;
    hide Meets;
    hide First;
    var eps := Missed(cands, v, w);
    var f := map d | d in DeviceSet(eps) :: IndexOf(d);
    forall d, e | d in f && e in f && f[d] == f[e] ensures d == e {
      var k := DeviceListed(eps, d);
      var m := DeviceListed(eps, e);
      var l1, x := MissedAre(cands, v, w, k);
      var l2, y := MissedAre(cands, v, w, m);
      IndexOfAsking(if l1 then w else v, x);
      IndexOfAsking(if l2 then w else v, y);
    }
    forall d | d in f ensures f[d] < |cands| {
      var k := DeviceListed(eps, d);
      var late, x := MissedAre(cands, v, w, k);
      IndexOfAsking(if late then w else v, x);
    }
    forall k | 0 <= k < |eps| && First(eps, k) ensures eps[k].device in f && Supports(cands[f[eps[k].device]], eps[k]) {
      var late, x := MissedAre(cands, v, w, k);
      IndexOfAsking(if late then w else v, x);
      MeetsIsSupports(cands[x], if late then w else v, x);
      DeviceIn(eps, k);
    }
    assert Assignment(cands, eps, f);
  }

  lemma DeviceIn(eps: seq<Endpoint>, k: nat)
    requires k < |eps|
    ensures eps[k].device in DeviceSet(eps)
  {
  }

  /** Candidates were taken from below: none that meets w was passed over. */
  predicate FromBelow(cands: seq<Candidate>, b: Book, w: Demand) {
    && BookFits(cands, b) && UsedIsImage(b)
    && forall d, x :: d in b.chosen && 0 <= x < b.chosen[d] && Meets(cands[x], w) ==> b.used[x]
  }

  lemma BelowStep(cands: seq<Candidate>, b: Book, w: Demand, i: nat)
    requires w.Real() && i < EPS_NUM_MAX && FromBelow(cands, b, w) && RemapEndpoint(cands, b, Asking(w, i)).Done?
    ensures FromBelow(cands, RemapEndpoint(cands, b, Asking(w, i)).book, w)
  {
    hide Supports;
    hide Meets;
    hide Assigned;
    hide UsedIsImage;
    hide Asking;
    var ep := Asking(w, i);
    if ep.device !in b.chosen {
      var y := FirstFrom(cands, b.used, ep, 0);
      TakesOneMore(b, ep.device, y);
      forall x | 0 <= x < y && Meets(cands[x], w) ensures b.used[x] {
        MeetsIsSupports(cands[x], w, i);
      }
    }
  }

  lemma {:induction false} ListedFromBelow(cands: seq<Candidate>, w: Demand, t: set<nat>, n: nat)
    requires w.Real() && n <= EPS_NUM_MAX && RemapEndpoints(cands, Blank(cands), Listed(w, t, n)).Done?
    ensures FromBelow(cands, RemapEndpoints(cands, Blank(cands), Listed(w, t, n)).book, w)
    decreases n
  {
    hide RemapEndpoint;
    hide Asking;
    hide Meets;
    hide UsedIsImage;
    if n == 0 {
      BlankStart(cands);
    } else {
      var was, now := Listed(w, t, n - 1), Listed(w, t, n);
      if n - 1 in t {
        assert now[..|now| - 1] == was;
        ListedFromBelow(cands, w, t, n - 1);
        BelowStep(cands, RemapEndpoints(cands, Blank(cands), was).book, w, n - 1);
      } else {
        assert now == was;
        ListedFromBelow(cands, w, t, n - 1);
      }
    }
  }

  /** Where the addresses of a list that asks for w end up. */
  lemma ServedMeet(cands: seq<Candidate>, v: Demand, w: Demand, chosen: map<byte, nat>, d: byte)
    requires v.Real() && w.Real() && |cands| <= EPS_NUM_MAX
    requires FirstsSupported(cands, chosen, Missed(cands, v, w)) && d in chosen
    ensures var xs := Listed(v, Meeting(cands, v) - Meeting(cands, w), |cands|);
            && (d in DeviceSet(xs) ==> chosen[d] in Meeting(cands, v))
            && (d !in DeviceSet(xs) ==> chosen[d] in Meeting(cands, w))
            && (d in DeviceSet(Listed(w, Meeting(cands, w), |cands|)) ==> d !in DeviceSet(xs))
  {
    hide Listed;
    hide DeviceSet;
    hide Supports;
    hide Meets;
    hide Meeting;
    var eps := Missed(cands, v, w);
    var xs := Listed(v, Meeting(cands, v) - Meeting(cands, w), |cands|);
    var ys := Listed(w, Meeting(cands, w), |cands|);
    var m := DeviceListed(eps, d);
    var k := FirstExists(eps, m);
    var late, x := MissedAre(cands, v, w, k);
    MeetsIsSupports(cands[chosen[d]], if late then w else v, x);
    InMeeting(cands, if late then w else v, chosen[d]);
    if late {
      NotEarly(v, w, Meeting(cands, v) - Meeting(cands, w), |cands|, d, x);
    } else {
      assert xs[k] == eps[k];
      DeviceIn(xs, k);
    }
    if d in DeviceSet(ys) && d in DeviceSet(xs) {
      var p := DeviceListed(ys, d);
      var y := ListedAre(w, Meeting(cands, w), |cands|, p);
      NotEarly(v, w, Meeting(cands, v) - Meeting(cands, w), |cands|, d, y);
      assert false;
    }
  }

  lemma InMeeting(cands: seq<Candidate>, w: Demand, x: nat)
    requires x < |cands| && Meets(cands[x], w)
    ensures x in Meeting(cands, w)
  {
  }

  lemma NotEarly(v: Demand, w: Demand, t: set<nat>, n: nat, d: byte, x: nat)
    requires v.Real() && w.Real() && n <= EPS_NUM_MAX && x < EPS_NUM_MAX && x !in t && d == Asking(w, x).device
    ensures d !in DeviceSet(Listed(v, t, n))
  {
    hide DeviceSet;
    if d in DeviceSet(Listed(v, t, n)) {
      var k := DeviceListed(Listed(v, t, n), d);
      var y := ListedAre(v, t, n, k);
      assert false;
    }
  }

  lemma BelowAll(cands: seq<Candidate>, w: Demand, t: set<nat>)
    requires t <= Meeting(cands, w)
    ensures Below(t, |cands|) == t
  {
  }

  lemma {:induction false} ChosenAre(cands: seq<Candidate>, eps: seq<Endpoint>)
    requires RemapEndpoints(cands, Blank(cands), eps).Done?
    ensures RemapEndpoints(cands, Blank(cands), eps).book.chosen.Keys == DeviceSet(eps)
  {
    WalkChecksFirsts(cands, eps);
  }

  lemma {:induction false} BookGrows(cands: seq<Candidate>, b: Book, eps: seq<Endpoint>)
    requires BookFits(cands, b) && RemapEndpoints(cands, b, eps).Done?
    ensures Extends(b.chosen, RemapEndpoints(cands, b, eps).book.chosen)
    decreases |eps|
  {
    hide Assigned;
    hide FirstFrom;
    if eps != [] {
      BookGrows(cands, b, eps[..|eps| - 1]);
    }
  }

  /** The endpoints for v are served by candidates that meet v and not w, and not by j. */
  lemma EarlyAvoid(cands: seq<Candidate>, v: Demand, w: Demand, i: nat, j: nat, b: Book, chosen: map<byte, nat>, d: byte)
    requires v.Real() && w.Real() && |cands| <= EPS_NUM_MAX && i < j < |cands|
    requires Meets(cands[i], v) && i in Meeting(cands, w) && FromBelow(cands, b, v)
    requires d in b.chosen && Extends(b.chosen, chosen)
    requires forall e :: e in b.chosen ==> chosen[e] !in Meeting(cands, w)
    ensures chosen[d] != j
  {
    hide Meets;
    hide Meeting;
    assert chosen[d] == j ==> b.used[i] && Takes(b, i);
  }

  lemma MissedIsMissed(cands: seq<Candidate>, v: Demand, w: Demand, i: nat, j: nat)
    requires v.Real() && w.Real() && |cands| <= EPS_NUM_MAX && i < j < |cands|
    requires Meets(cands[i], v) && Meets(cands[j], v) && Meets(cands[i], w) && !Meets(cands[j], w)
    ensures var alts := [Alt(0, 0, 0, 0, Missed(cands, v, w))];
            Fresh(alts) && Numbered(Flat(alts), |cands|) && Assignable(cands, Flat(alts)) && Remap(cands, alts).Failed?
  {
    hide RemapEndpoints;
    hide RemapAlts;
    hide Assignable;
    hide FirstsSupported;
    hide Listed;
    hide Asking;
    hide FromBelow;
    hide DeviceSet;
    hide Meets;
    var eps := Missed(cands, v, w);
    var alts := [Alt(0, 0, 0, 0, eps)];
    MissedFresh(cands, v, w);
    MissedAssignable(cands, v, w);
    assert Flat(alts) == eps by { FlatOne(alts); }
    FlatWalk(cands, Blank(cands), alts);
    if Remap(cands, alts).Done? {
      InMeeting(cands, w, i);
      InMeeting(cands, v, j);
      RemapServes(cands, alts);
      RemapChecksFirsts(cands, alts);
      hide Meeting;
      NoSuchWalk(cands, v, w, i, j, Remap(cands, alts).book.chosen);
    }
  }

  lemma FlatOne(alts: seq<Alt>)
    requires |alts| == 1
    ensures Flat(alts) == alts[0].endpoints
  {
    assert alts[..0] == [];
  }

  lemma MissedFresh(cands: seq<Candidate>, v: Demand, w: Demand)
    requires v.Real() && w.Real() && |cands| <= EPS_NUM_MAX
    ensures FreshList(Missed(cands, v, w)) && Numbered(Missed(cands, v, w), |cands|)
  {
    hide Missed;
    var eps := Missed(cands, v, w);
    forall k | 0 <= k < |eps| ensures eps[k].address == eps[k].device && 1 <= eps[k].device % DIR_IN <= |cands| {
      var late, x := MissedAre(cands, v, w, k);
    }
  }

  /** The walk over the first of the two lists, and where both lists end up. */
  lemma WalkOfMissed(cands: seq<Candidate>, v: Demand, w: Demand, chosen: map<byte, nat>)
    returns (b: Book, early: set<byte>, late: set<byte>)
    requires v.Real() && w.Real() && |cands| <= EPS_NUM_MAX
    requires RemapEndpoints(cands, Blank(cands), Missed(cands, v, w)).Done?
    requires chosen == RemapEndpoints(cands, Blank(cands), Missed(cands, v, w)).book.chosen
    requires FirstsSupported(cands, chosen, Missed(cands, v, w))
    ensures FromBelow(cands, b, v) && Extends(b.chosen, chosen) && b.chosen.Keys == early
    ensures |early| == |Meeting(cands, v) - Meeting(cands, w)| && |late| == |Meeting(cands, w)|
    ensures forall d :: d in early ==> d in chosen && chosen[d] in Meeting(cands, v)
    ensures forall d :: d in late ==> d !in early && d in chosen && chosen[d] in Meeting(cands, w)
  {
    hide RemapEndpoints;
    hide Listed;
    hide FromBelow;
    hide DeviceSet;
    hide Meets;
    hide Meeting;
    hide Supports;
    hide First;
    var s, t := Meeting(cands, v) - Meeting(cands, w), Meeting(cands, w);
    var xs, ys := Listed(v, s, |cands|), Listed(w, t, |cands|);
    WalkAppends(cands, Blank(cands), xs, ys);
    b := RemapEndpoints(cands, Blank(cands), xs).book;
    early, late := DeviceSet(xs), DeviceSet(ys);
    BookGrows(cands, b, ys);
    ChosenAre(cands, xs);
    ListedFromBelow(cands, v, s, |cands|);
    ListedCount(v, s, |cands|);
    ListedCount(w, t, |cands|);
    BelowAll(cands, v, s);
    BelowAll(cands, w, t);
    DevicesOfBoth(xs, ys);
    forall d | d in chosen
      ensures (d in early ==> chosen[d] in Meeting(cands, v)) && (d in late ==> d !in early && chosen[d] in t)
    {
      ServedMeet(cands, v, w, chosen, d);
    }
  }

  /** Counting: the endpoints for w need all that meet w, those for v all the others that
      meet v, j included, but i is found before j. */
  lemma NoSuchWalk(cands: seq<Candidate>, v: Demand, w: Demand, i: nat, j: nat, chosen: map<byte, nat>)
    requires v.Real() && w.Real() && |cands| <= EPS_NUM_MAX && i < j < |cands|
    requires Meets(cands[i], v) && i in Meeting(cands, w) && j in Meeting(cands, v) && j !in Meeting(cands, w)
    requires RemapEndpoints(cands, Blank(cands), Missed(cands, v, w)).Done?
    requires chosen == RemapEndpoints(cands, Blank(cands), Missed(cands, v, w)).book.chosen
    requires FirstsSupported(cands, chosen, Missed(cands, v, w))
    ensures !Injective(chosen)
  {
    hide RemapEndpoints;
    hide FromBelow;
    hide Meets;
    hide Meeting;
    hide FirstsSupported;
    hide Missed;
    var s, t := Meeting(cands, v) - Meeting(cands, w), Meeting(cands, w);
    var b, early, late := WalkOfMissed(cands, v, w, chosen);
    if Injective(chosen) {
      forall d | d in early ensures chosen[d] !in t {
        if chosen[d] in t {
          InjectionSize(chosen, late + {d}, t);
          assert false;
        }
      }
      forall d | d in early ensures chosen[d] in s - {j} {
        EarlyAvoid(cands, v, w, i, j, b, chosen, d);
      }
      InjectionSize(chosen, early, s - {j});
    }
  }

  lemma DevicesOfBoth(xs: seq<Endpoint>, ys: seq<Endpoint>)
    ensures DeviceSet(xs + ys) == DeviceSet(xs) + DeviceSet(ys)
  {
  }

  // ------------------------------------------------------------ exactly

  /** A demand that both meet, and one that only c meets. */
  lemma Demands(c: Candidate, d: Candidate) returns (v: Demand, w: Demand)
    requires Compete(c, d) && !Within(c, d)
    ensures v.Real() && w.Real() && Meets(c, v) && Meets(d, v) && Meets(c, w) && !Meets(d, w)
  {
    var kind := if c.iso && d.iso then XFER_ISOC else if c.bulk && d.bulk then XFER_BULK else XFER_INT;
    var dirIn := c.dirIn && d.dirIn;
    v := Demand(dirIn, kind, 0);
    if c.dirIn && !d.dirIn {
      w := Demand(true, kind, 0);
    } else if c.dirOut && !d.dirOut {
      w := Demand(false, kind, 0);
    } else if c.iso && !d.iso {
      w := Demand(dirIn, XFER_ISOC, 0);
    } else if c.bulk && !d.bulk {
      w := Demand(dirIn, XFER_BULK, 0);
    } else if c.intr && !d.intr {
      w := Demand(dirIn, XFER_INT, 0);
    } else {
      w := Demand(dirIn, kind, d.limit + 1);
    }
  }

  /** First fit finds an assignment for every configuration that has one, exactly when any
      candidate that competes with a later one supports no more than that one does. For up
      to 15 candidates devices with proper endpoint numbers decide it as well. */
  lemma FirstFitOptimalExactly(cands: seq<Candidate>)
    requires |cands| <= EPS_NUM_MAX
    ensures NeverMisses(cands) <==> NarrowFirst(cands)
    ensures |cands| <= 15 ==> (NeverMissesNumbered(cands) <==> NarrowFirst(cands))
  {
    hide Remap;
    hide Compete;
    hide Within;
    hide Assignable;
    hide Flat;
    if NarrowFirst(cands) {
      forall alts | Fresh(alts) && Assignable(cands, Flat(alts)) ensures Remap(cands, alts).Done? {
        NarrowFirstSuffices(cands, alts);
      }
    } else {
      var i, j :| 0 <= i < j < |cands| && Compete(cands[i], cands[j]) && !Within(cands[i], cands[j]);
      var v, w := Demands(cands[i], cands[j]);
      MissedIsMissed(cands, v, w, i, j);
      assert Fresh([Alt(0, 0, 0, 0, Missed(cands, v, w))]);
    }
  }
}
