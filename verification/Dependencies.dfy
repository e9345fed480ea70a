/** The plugin registry's dependency graph: the depth-first check before a start, and what
    installing and uninstalling keep true of it. */
module Dependencies {
  type Id = string

  /** The registered plugins, each with the plugins it names as dependencies. Version
      constraints are parsed off and never compared. */
  type Registry = map<Id, seq<Id>>

  datatype Verdict = Fine | NotFound(id: Id) | Cycle(id: Id) | Missing(id: Id)

  /** _check_dependencies: visiting is a set of its own for every call. */
  function Check(reg: Registry, id: Id, visiting: set<Id>): Verdict
    decreases |reg.Keys - visiting|, 0
  {
    if id in visiting then Cycle(id)
    else if id !in reg then NotFound(id)
    else
      assert reg.Keys - (visiting + {id}) == (reg.Keys - visiting) - {id};
      CheckAll(reg, reg[id], visiting + {id})
  }

  /** The loop over the dependencies of one plugin. */
  function CheckAll(reg: Registry, deps: seq<Id>, visiting: set<Id>): Verdict
    decreases |reg.Keys - visiting|, 1 + |deps|
  {
    if deps == [] then Fine
    else if deps[0] !in reg then Missing(deps[0])
    else
      var v := Check(reg, deps[0], visiting);
      if v != Fine then v else CheckAll(reg, deps[1..], visiting)
  }

  method CheckDependencies(reg: Registry, id: Id, visiting0: set<Id>) returns (v: Verdict)
    ensures v == Check(reg, id, visiting0)
    decreases |reg.Keys - visiting0|
  {
    if id in visiting0 { return Cycle(id); }
    if id !in reg { return NotFound(id); }
    var visiting := visiting0 + {id};
    assert reg.Keys - visiting == (reg.Keys - visiting0) - {id};
    var deps := reg[id];
    for i := 0 to |deps|
      invariant CheckAll(reg, deps[i..], visiting) == CheckAll(reg, deps, visiting)
    {
      if deps[i] !in reg { return Missing(deps[i]); }
      v := CheckDependencies(reg, deps[i], visiting);
      if v != Fine { return v; }
    }
    return Fine;
  }

  // ------------------------------------------------------------ paths

  /** A chain of dependencies; only its last plugin may be unregistered. */
  predicate Path(reg: Registry, p: seq<Id>) {
    p != [] && forall i :: 0 <= i < |p| - 1 ==> p[i] in reg && p[i + 1] in reg[p[i]]
  }

  predicate Distinct(p: seq<Id>) {
    forall i, j :: 0 <= i < j < |p| ==> p[i] != p[j]
  }

  /** Everything on the path is registered, nothing is seen twice, nothing is in visiting. */
  predicate Sound(reg: Registry, visiting: set<Id>, p: seq<Id>) {
    Distinct(p) && forall i :: 0 <= i < |p| ==> p[i] in reg && p[i] !in visiting
  }

  lemma {:induction false} FineMeansSound(reg: Registry, id: Id, visiting: set<Id>, p: seq<Id>)
    requires Check(reg, id, visiting) == Fine && Path(reg, p) && p[0] == id
    ensures Sound(reg, visiting, p)
    decreases |p|
  {
    if |p| > 1 {
      AllFine(reg, reg[id], visiting + {id}, p[1]);
      assert Path(reg, p[1..]);
      FineMeansSound(reg, p[1], visiting + {id}, p[1..]);
      forall i, j | 0 <= i < j < |p| ensures p[i] != p[j] {
        assert p[j] == p[1..][j - 1];
        assert i > 0 ==> p[i] == p[1..][i - 1];
      }
      forall i | 0 <= i < |p| ensures p[i] in reg && p[i] !in visiting {
        assert i > 0 ==> p[i] == p[1..][i - 1];
      }
    }
  }

  lemma {:induction false} AllFine(reg: Registry, deps: seq<Id>, visiting: set<Id>, d: Id)
    requires CheckAll(reg, deps, visiting) == Fine && d in deps
    ensures Check(reg, d, visiting) == Fine
    decreases |deps|
  {
    if deps[0] != d {
      AllFine(reg, deps[1..], visiting, d);
    }
  }

  /** A check that raises has a witness: a path that is not sound. */
  lemma {:induction false} RaiseHasWitness(reg: Registry, id: Id, visiting: set<Id>) returns (p: seq<Id>)
    requires Check(reg, id, visiting) != Fine
    ensures Path(reg, p) && p[0] == id && !Sound(reg, visiting, p)
    decreases |reg.Keys - visiting|, 0
  {
    p := [id];
    if id !in visiting && id in reg {
      assert reg.Keys - (visiting + {id}) == (reg.Keys - visiting) - {id};
      var q := LoopWitness(reg, reg[id], visiting + {id});
      p := [id] + q;
      assert p[1..] == q;
      assert Path(reg, p) by {
        forall i | 0 <= i < |p| - 1 ensures p[i] in reg && p[i + 1] in reg[p[i]] {
          assert i > 0 ==> p[i] == q[i - 1] && p[i + 1] == q[i];
        }
      }
      if Sound(reg, visiting, p) {
        SoundTail(reg, visiting, id, q);
      }
    }
  }

  lemma SoundTail(reg: Registry, visiting: set<Id>, id: Id, q: seq<Id>)
    requires Sound(reg, visiting, [id] + q)
    ensures Sound(reg, visiting + {id}, q)
  {
    var p := [id] + q;
    assert forall i :: 0 <= i < |q| ==> q[i] == p[i + 1];
    assert p[0] == id;
  }

  lemma {:induction false} LoopWitness(reg: Registry, deps: seq<Id>, visiting: set<Id>) returns (q: seq<Id>)
    requires CheckAll(reg, deps, visiting) != Fine
    ensures Path(reg, q) && q[0] in deps && !Sound(reg, visiting, q)
    decreases |reg.Keys - visiting|, 1 + |deps|
  {
    if deps[0] !in reg {
      q := [deps[0]];
    } else if Check(reg, deps[0], visiting) != Fine {
      q := RaiseHasWitness(reg, deps[0], visiting);
    } else {
      q := LoopWitness(reg, deps[1..], visiting);
    }
  }

  // ------------------------------------------------------------ reachability

  predicate Leads(reg: Registry, p: seq<Id>, a: Id, b: Id) {
    Path(reg, p) && p[0] == a && p[|p| - 1] == b
  }

  ghost predicate Reaches(reg: Registry, a: Id, b: Id) {
    exists p :: Leads(reg, p, a, b)
  }

  ghost predicate OnCycle(reg: Registry, a: Id) {
    exists p :: Leads(reg, p, a, a) && |p| > 1
  }

  lemma PathsJoin(reg: Registry, p: seq<Id>, c: seq<Id>)
    requires Path(reg, p) && Path(reg, c) && p[|p| - 1] == c[0]
    ensures Path(reg, p + c[1..])
  {
    var j := p + c[1..];
    forall i | 0 <= i < |j| - 1 ensures j[i] in reg && j[i + 1] in reg[j[i]] {
      if i >= |p| - 1 {
        assert j[i] == c[i + 1 - |p|] && j[i + 1] == c[i + 2 - |p|];
      }
    }
  }

  lemma CycleRepeats(reg: Registry, p: seq<Id>, c: seq<Id>)
    requires Path(reg, p) && Path(reg, c) && |c| > 1 && p[|p| - 1] == c[0] == c[|c| - 1]
    ensures Path(reg, p + c[1..]) && !Distinct(p + c[1..])
  {
    PathsJoin(reg, p, c);
    var j := p + c[1..];
    assert j[|p| - 1] == j[|j| - 1];
  }

  /** The check returns normally exactly when every plugin reachable from the start is
      registered and none of them lies on a cycle. */
  lemma CheckIsExact(reg: Registry, id: Id)
    ensures Check(reg, id, {}) == Fine <==> forall x :: Reaches(reg, id, x) ==> x in reg && !OnCycle(reg, x)
  {
    hide Check;
    if Check(reg, id, {}) == Fine {
      forall x | Reaches(reg, id, x) ensures x in reg && !OnCycle(reg, x) {
        var p :| Leads(reg, p, id, x);
        FineMeansSound(reg, id, {}, p);
        if OnCycle(reg, x) {
          var c :| Leads(reg, c, x, x) && |c| > 1;
          CycleRepeats(reg, p, c);
          FineMeansSound(reg, id, {}, p + c[1..]);
        }
      }
    } else {
      var p := RaiseHasWitness(reg, id, {});
      UnsoundReaches(reg, id, p);
    }
  }

  /** What a raised error says is true: the missing plugin is a reachable one that is not
      registered, the plugin of a cycle lies on one that is reachable, and only the start
      itself is ever reported as not found. */
  ghost predicate Truthful(reg: Registry, start: Id, v: Verdict) {
    && (v.NotFound? ==> v.id == start && start !in reg)
    && (v.Missing? ==> v.id !in reg && Reaches(reg, start, v.id))
    && (v.Cycle? ==> v.id in reg && Reaches(reg, start, v.id) && OnCycle(reg, v.id))
  }

  lemma VerdictIsTrue(reg: Registry, id: Id)
    ensures Truthful(reg, id, Check(reg, id, {}))
  {
    assert Path(reg, [id]) && Before([id]) == {};
    VerdictOnPath(reg, id, id, [id]);
  }

  /** The set of everything on p before its last plugin. */
  function Before(p: seq<Id>): set<Id>
    requires p != []
  {
    Elements(p[..|p| - 1])
  }

  function Elements(p: seq<Id>): set<Id> {
    set x | x in p
  }

  lemma Extend(reg: Registry, p: seq<Id>, d: Id)
    requires Path(reg, p) && p[|p| - 1] in reg && d in reg[p[|p| - 1]]
    ensures Path(reg, p + [d]) && Before(p + [d]) == Before(p) + {p[|p| - 1]}
  {
    var q := p + [d];
    assert q[..|q| - 1] == p;
    assert p == p[..|p| - 1] + [p[|p| - 1]];
    forall i | 0 <= i < |q| - 1 ensures q[i] in reg && q[i + 1] in reg[q[i]] {
      if i < |p| - 1 {
        assert q[i] == p[i] && q[i + 1] == p[i + 1];
      }
    }
  }

  lemma {:induction false} VerdictOnPath(reg: Registry, start: Id, id: Id, p: seq<Id>)
    requires Leads(reg, p, start, id) && (|p| > 1 ==> id in reg)
    ensures Truthful(reg, start, Check(reg, id, Before(p)))
    decreases |reg.Keys - Before(p)|, 0
  {
    if id in Before(p) {
      var i :| 0 <= i < |p| - 1 && p[i] == id;
      assert Leads(reg, p[i..], id, id);
    } else if id in reg {
      assert reg.Keys - (Before(p) + {id}) == (reg.Keys - Before(p)) - {id};
      VerdictOnLoop(reg, start, id, p, reg[id]);
    }
  }

  lemma {:induction false} VerdictOnLoop(reg: Registry, start: Id, id: Id, p: seq<Id>, deps: seq<Id>)
    requires Leads(reg, p, start, id) && id in reg && forall d :: d in deps ==> d in reg[id]
    ensures Truthful(reg, start, CheckAll(reg, deps, Before(p) + {id}))
    decreases |reg.Keys - (Before(p) + {id})|, 1 + |deps|
  {
    if deps != [] {
      var d := deps[0];
      Extend(reg, p, d);
      var q := p + [d];
      assert Leads(reg, q, start, d);
      if d in reg {
        VerdictOnPath(reg, start, d, q);
        VerdictOnLoop(reg, start, id, p, deps[1..]);
      }
    }
  }

  lemma UnsoundReaches(reg: Registry, id: Id, p: seq<Id>)
    requires Path(reg, p) && p[0] == id && !Sound(reg, {}, p)
    ensures exists x :: Reaches(reg, id, x) && (x !in reg || OnCycle(reg, x))
  {
    if i :| 0 <= i < |p| && p[i] !in reg {
      assert Leads(reg, p[..i + 1], id, p[i]);
      assert Reaches(reg, id, p[i]);
    } else {
      var i, j :| 0 <= i < j < |p| && p[i] == p[j];
      assert Leads(reg, p[..i + 1], id, p[i]);
      PartLeads(reg, p, i, j);
      assert Reaches(reg, id, p[i]) && OnCycle(reg, p[i]);
    }
  }

  lemma PartLeads(reg: Registry, p: seq<Id>, i: nat, j: nat)
    requires Path(reg, p) && i <= j < |p|
    ensures Leads(reg, p[i..j + 1], p[i], p[j])
  {
    var q := p[i..j + 1];
    forall k | 0 <= k < |q| - 1 ensures q[k] in reg && q[k + 1] in reg[q[k]] {
      assert q[k] == p[i + k] && q[k + 1] == p[i + k + 1];
    }
  }

  // ------------------------------------------------------------ runs of the manager

  datatype Op = Install(id: Id, deps: seq<Id>) | Uninstall(id: Id)

  datatype Raised = Done | AlreadyInstalled | DependencyMissing(dep: Id) | NotRegistered | StillRequired | RolledBack

  /** _check_dependencies_for_manifest without builtin plugins: the first absent one. */
  function FirstAbsent(reg: Registry, deps: seq<Id>): (r: nat)
    ensures r <= |deps| && (forall i :: 0 <= i < r ==> deps[i] in reg) && (r < |deps| ==> deps[r] !in reg)
    decreases |deps|
  {
    if deps == [] || deps[0] !in reg then 0 else 1 + FirstAbsent(reg, deps[1..])
  }

  function Dependents(reg: Registry, id: Id): set<Id> {
    set r | r in reg && id in reg[r]
  }

  function Outcome(reg: Registry, op: Op): Raised {
    match op
    case Install(id, deps) =>
      if id in reg then AlreadyInstalled
      else if FirstAbsent(reg, deps) < |deps| then DependencyMissing(deps[FirstAbsent(reg, deps)])
      else Done
    case Uninstall(id) =>
      if id !in reg then NotRegistered else if Dependents(reg, id) != {} then StillRequired else Done
  }

  function Step(reg: Registry, op: Op): Registry {
    if Outcome(reg, op) != Done then reg
    else
      match op
      case Install(id, deps) => reg[id := deps]
      case Uninstall(id) => reg - {id}
  }

  /** Exactly when each operation goes through and what it raises otherwise: an install names
      the first of its dependencies that is not there, an uninstall is refused while anyone
      names the plugin. Only what goes through changes the registry. */
  lemma OutcomeExactly(reg: Registry, id: Id, deps: seq<Id>)
    ensures var r := Outcome(reg, Install(id, deps));
            && (r == AlreadyInstalled <==> id in reg)
            && (r == Done <==> id !in reg && forall d <- deps :: d in reg)
            && (r.DependencyMissing? <==> id !in reg && exists d <- deps :: d !in reg)
            && (r.DependencyMissing? ==>
                  exists i :: 0 <= i < |deps| && deps[i] == r.dep && deps[i] !in reg && forall j :: 0 <= j < i ==> deps[j] in reg)
            && Step(reg, Install(id, deps)) == if r == Done then reg[id := deps] else reg
    ensures var r := Outcome(reg, Uninstall(id));
            && (r == NotRegistered <==> id !in reg)
            && (r == StillRequired <==> id in reg && exists q <- reg :: id in reg[q])
            && (r == Done <==> id in reg && forall q <- reg :: id !in reg[q])
            && Step(reg, Uninstall(id)) == if r == Done then map q | q in reg && q != id :: reg[q] else reg
  {
    if id in reg && Dependents(reg, id) != {} {
      var q :| q in Dependents(reg, id);
      assert q in reg && id in reg[q];
    }
    assert forall q <- reg :: id in reg[q] ==> q in Dependents(reg, id);
  }

  /** upgrade: the new dependencies must be registered. Only a plugin that is running is
      started again, and gets its old record back when that start raises or fails; starts
      says whether the new version comes up once its dependencies were checked. */
  function Upgraded(reg: Registry, id: Id, deps: seq<Id>, running: bool, starts: bool): (Raised, Registry) {
    if id !in reg then (NotRegistered, reg)
    else if FirstAbsent(reg, deps) < |deps| then (DependencyMissing(deps[FirstAbsent(reg, deps)]), reg)
    else if running && (Check(reg[id := deps], id, {}) != Fine || !starts) then (RolledBack, reg)
    else (Done, reg[id := deps])
  }

  /** Exactly when an upgrade goes through, and that nothing else changes the registry. */
  lemma UpgradedExactly(reg: Registry, id: Id, deps: seq<Id>, running: bool, starts: bool)
    ensures var (r, next) := Upgraded(reg, id, deps, running, starts);
            && (r == NotRegistered <==> id !in reg)
            && (r.DependencyMissing? <==> id in reg && exists d <- deps :: d !in reg)
            && (r.DependencyMissing? ==>
                  exists i :: 0 <= i < |deps| && deps[i] == r.dep && deps[i] !in reg && forall j :: 0 <= j < i ==> deps[j] in reg)
            && (r == RolledBack <==> id in reg && (forall d <- deps :: d in reg) && running
                                     && (!starts || Check(reg[id := deps], id, {}) != Fine))
            && (r == Done <==> id in reg && (forall d <- deps :: d in reg)
                               && (running ==> starts && Check(reg[id := deps], id, {}) == Fine))
            && next == if r == Done then reg[id := deps] else reg
  {
    hide Check;
  }

  /** The registry part of PluginManager. */
  class PluginManager {
    var records: Registry

    constructor ()
      ensures records == map[]
    {
      records := map[];
    }

    /** install without force; storing the package is taken to succeed. */
    method Install(id: Id, deps: seq<Id>) returns (r: Raised)
      modifies this
      ensures r == Outcome(old(records), Op.Install(id, deps))
      ensures records == Step(old(records), Op.Install(id, deps))
    {
      if id in records { return AlreadyInstalled; }
      for i := 0 to |deps|
        invariant i + FirstAbsent(records, deps[i..]) == FirstAbsent(records, deps)
      {
        if deps[i] !in records { return DependencyMissing(deps[i]); }
      }
      records := records[id := deps];
      return Done;
    }

    method Uninstall(id: Id) returns (r: Raised)
      modifies this
      ensures r == Outcome(old(records), Op.Uninstall(id))
      ensures records == Step(old(records), Op.Uninstall(id))
    {
      if id !in records { return NotRegistered; }
      if Dependents(records, id) != {} { return StillRequired; }
      records := records - {id};
      return Done;
    }

    method Upgrade(id: Id, deps: seq<Id>, running: bool, starts: bool) returns (r: Raised)
      modifies this
      ensures (r, records) == Upgraded(old(records), id, deps, running, starts)
    {
      hide Check;
      if id !in records { return NotRegistered; }
      for i := 0 to |deps|
        invariant i + FirstAbsent(records, deps[i..]) == FirstAbsent(records, deps)
      {
        if deps[i] !in records { return DependencyMissing(deps[i]); }
      }
      var was := records[id];
      records := records[id := deps];
      if running {
        var v := CheckStart(id);
        if v != Fine || !starts {
          records := records[id := was];
          assert records == old(records);
          return RolledBack;
        }
      }
      return Done;
    }

    /** The guard of start. */
    method CheckStart(id: Id) returns (v: Verdict)
      ensures v == if id in records then Check(records, id, {}) else NotFound(id)
    {
      if id !in records { return NotFound(id); }
      v := CheckDependencies(records, id, {});
    }
  }

  function Run(reg: Registry, ops: seq<Op>): Registry
    decreases |ops|
  {
    if ops == [] then reg else Run(Step(reg, ops[0]), ops[1..])
  }

  /** rank is a witness that the graph is closed and acyclic: dependencies rank lower. */
  predicate Ranked(reg: Registry, rank: map<Id, nat>) {
    forall a :: a in reg ==> a in rank && forall d <- reg[a] :: d in reg && d in rank && rank[d] < rank[a]
  }

  ghost predicate Ordered(reg: Registry) {
    exists rank :: Ranked(reg, rank)
  }

  ghost function Above(reg: Registry, rank: map<Id, nat>): (n: nat)
    requires Ranked(reg, rank)
    ensures forall a :: a in reg ==> rank[a] < n
  {
    var ranks := set a | a in reg :: rank[a];
    assert forall a :: a in reg ==> rank[a] in ranks;
    Max(ranks) + 1
  }

  ghost function Max(s: set<nat>): (m: nat)
    ensures forall x :: x in s ==> x <= m
  {
    if s == {} then 0
    else
      var x :| x in s;
      var m := Max(s - {x});
      assert s == s - {x} + {x};
      if x > m then x else m
  }

  lemma StepKeepsOrder(reg: Registry, op: Op)
    requires Ordered(reg)
    ensures Ordered(Step(reg, op))
  {
    var rank :| Ranked(reg, rank);
    var next := Step(reg, op);
    if Outcome(reg, op) == Done {
      match op
      case Install(id, deps) =>
        var r := rank[id := Above(reg, rank)];
        forall a | a in next ensures a in r && forall d <- next[a] :: d in next && d in r && r[d] < r[a] {
          if a != id {
            assert forall d <- reg[a] :: d in reg && d != id;
          }
        }
        assert Ranked(next, r);
      case Uninstall(id) =>
        forall a | a in next ensures forall d <- next[a] :: d in next {
          assert a !in Dependents(reg, id);
        }
        assert Ranked(next, rank);
    }
  }

  lemma {:induction false} RunKeepsOrder(reg: Registry, ops: seq<Op>)
    requires Ordered(reg)
    ensures Ordered(Run(reg, ops))
    decreases |ops|
  {
    if ops != [] {
      StepKeepsOrder(reg, ops[0]);
      RunKeepsOrder(Step(reg, ops[0]), ops[1..]);
    }
  }

  lemma {:induction false} RankFalls(reg: Registry, rank: map<Id, nat>, p: seq<Id>, i: nat, j: nat)
    requires Ranked(reg, rank) && Path(reg, p) && p[0] in reg && i < j < |p|
    ensures p[i] in reg && p[j] in reg && rank[p[j]] < rank[p[i]]
    decreases j - i
  {
    if i + 1 < j {
      RankFalls(reg, rank, p, i, j - 1);
    }
  }

  lemma OrderedPathsSound(reg: Registry, p: seq<Id>)
    requires Ordered(reg) && Path(reg, p) && p[0] in reg
    ensures Sound(reg, {}, p)
  {
    var rank :| Ranked(reg, rank);
    forall i, j | 0 <= i < j < |p| ensures p[i] != p[j] {
      RankFalls(reg, rank, p, i, j);
    }
    forall i | 0 <= i < |p| ensures p[i] in reg {
      if i > 0 {
        RankFalls(reg, rank, p, 0, i);
      }
    }
  }

  lemma OrderedChecksFine(reg: Registry, id: Id)
    requires Ordered(reg) && id in reg
    ensures Check(reg, id, {}) == Fine
  {
    if Check(reg, id, {}) != Fine {
      var p := RaiseHasWitness(reg, id, {});
      OrderedPathsSound(reg, p);
    }
  }

  /** Whatever is installed and uninstalled without force, successfully or not, from an
      empty registry: every dependency of a registered plugin is registered, and the check
      before a start never raises for a registered plugin. */
  lemma InstalledPluginsStart(ops: seq<Op>, id: Id)
    requires id in Run(map[], ops)
    ensures var reg := Run(map[], ops);
            (forall d <- reg[id] :: d in reg) && Check(reg, id, {}) == Fine
  {
    assert Ranked(map[], map[]);
    RunKeepsOrder(map[], ops);
    var reg := Run(map[], ops);
    var rank :| Ranked(reg, rank);
    OrderedChecksFine(reg, id);
  }

  // ------------------------------------------------------------ upgrades and forced installs

  /** Replacing a plugin, by an upgrade or by an install with force: the new dependencies
      must be registered, but nothing looks for a cycle yet. */
  predicate CanReplace(reg: Registry, id: Id, deps: seq<Id>) {
    id in reg && forall d <- deps :: d in reg
  }

  lemma PathElsewhere(reg: Registry, id: Id, deps: seq<Id>, p: seq<Id>)
    requires CanReplace(reg, id, deps) && p != []
    requires forall i :: 0 <= i < |p| - 1 ==> p[i] != id
    ensures Path(reg, p) <==> Path(reg[id := deps], p)
  {
    var next := reg[id := deps];
    forall i | 0 <= i < |p| - 1 ensures (p[i] in reg <==> p[i] in next) && (p[i] in reg ==> reg[p[i]] == next[p[i]]) {
    }
  }

  lemma StaysRegistered(reg: Registry, id: Id, deps: seq<Id>, x: Id, p: seq<Id>)
    requires Ordered(reg) && CanReplace(reg, id, deps) && x in reg && Path(reg[id := deps], p) && p[0] == x
    ensures forall i :: 0 <= i < |p| ==> p[i] in reg
  {
    var next := reg[id := deps];
    var rank :| Ranked(reg, rank);
    forall i | 0 <= i < |p| ensures p[i] in reg {
      if i > 0 {
        assert p[i - 1] in next && p[i - 1 + 1] in next[p[i - 1]];
      }
    }
  }

  /** A cycle after the replacement runs through the replaced plugin, and so shows a new
      dependency that already reached it. */
  lemma NewCycleThroughId(reg: Registry, id: Id, deps: seq<Id>, c: seq<Id>)
    requires Ordered(reg) && CanReplace(reg, id, deps)
    requires Path(reg[id := deps], c) && |c| > 1 && c[0] == c[|c| - 1] && c[0] in reg
    ensures exists d :: d in deps && Reaches(reg, d, id)
  {
    var next := reg[id := deps];
    var n := |c|;
    if k :| 0 <= k < n - 1 && c[k] == id {
      PathsJoin(next, c, c);
      var w := c + c[1..];
      var b := NextVisit(w, id, k, k + n - 1);
      assert w[k] in next && w[k + 1] in next[w[k]];
      var q := w[k + 1..b + 1];
      assert Path(next, q) by {
        forall i | 0 <= i < |q| - 1 ensures q[i] in next && q[i + 1] in next[q[i]] {
          assert q[i] == w[k + 1 + i] && q[i + 1] == w[k + 2 + i];
        }
      }
      forall i | 0 <= i < |q| - 1 ensures q[i] != id {
        assert q[i] == w[k + 1 + i];
      }
      PathElsewhere(reg, id, deps, q);
      assert Leads(reg, q, w[k + 1], id);
      assert w[k + 1] in deps;
    } else {
      assert !Distinct(c);
      PathElsewhere(reg, id, deps, c);
      OrderedPathsSound(reg, c);
    }
  }

  /** The first position after k, at most b, that holds id. */
  lemma {:induction false} NextVisit(w: seq<Id>, id: Id, k: nat, b: nat) returns (r: nat)
    requires k < b < |w| && w[b] == id
    ensures k < r <= b && w[r] == id && forall i :: k < i < r ==> w[i] != id
    decreases b
  {
    r := b;
    if i :| k < i < b && w[i] == id {
      r := NextVisit(w, id, k, i);
    }
  }

  lemma DependencyReachingBack(reg: Registry, id: Id, deps: seq<Id>, d: Id)
    requires Ordered(reg) && CanReplace(reg, id, deps) && d in deps && Reaches(reg, d, id)
    ensures Check(reg[id := deps], id, {}) != Fine
  {
    var next := reg[id := deps];
    var p :| Leads(reg, p, d, id);
    OrderedPathsSound(reg, p);
    assert forall i :: 0 <= i < |p| - 1 ==> p[i] != p[|p| - 1];
    PathElsewhere(reg, id, deps, p);
    var c := [id] + p;
    assert Path(next, c) by {
      forall i | 0 <= i < |c| - 1 ensures c[i] in next && c[i + 1] in next[c[i]] {
        assert i > 0 ==> c[i] == p[i - 1] && c[i + 1] == p[i];
      }
    }
    assert c[0] == id && c[|c| - 1] == id;
    if Check(next, id, {}) == Fine {
      FineMeansSound(next, id, {}, c);
    }
  }

  /** Replacing a plugin leaves every registered plugin startable exactly when none of its
      new dependencies already depends on it, directly or through others. */
  lemma ReplaceKeepsStarts(reg: Registry, id: Id, deps: seq<Id>)
    requires Ordered(reg) && CanReplace(reg, id, deps)
    ensures (forall x :: x in reg ==> Check(reg[id := deps], x, {}) == Fine)
            <==> forall d :: d in deps ==> !Reaches(reg, d, id)
  {
    hide Check;
    var next := reg[id := deps];
    if d :| d in deps && Reaches(reg, d, id) {
      DependencyReachingBack(reg, id, deps, d);
    } else {
      forall x | x in reg ensures Check(next, x, {}) == Fine {
        if Check(next, x, {}) != Fine {
          var p := RaiseHasWitness(next, x, {});
          StaysRegistered(reg, id, deps, x, p);
          var i, j :| 0 <= i < j < |p| && p[i] == p[j];
          assert Path(next, p[i..j + 1]);
          NewCycleThroughId(reg, id, deps, p[i..j + 1]);
        }
      }
    }
  }

  lemma RunTwo(reg: Registry, ops: seq<Op>)
    requires |ops| == 2
    ensures Run(reg, ops) == Step(Step(reg, ops[0]), ops[1])
  {
    var one := Step(reg, ops[0]);
    assert ops[1..][0] == ops[1] && ops[1..][1..] == [];
    assert Run(one, ops[1..]) == Run(Step(one, ops[1]), []);
  }

  /** After an upgrade every registered plugin can start, exactly when the plugin was running
      or the upgrade was refused, or none of its new dependencies depends on it. */
  lemma UpgradeKeepsStarts(reg: Registry, id: Id, deps: seq<Id>, running: bool, starts: bool)
    requires Ordered(reg)
    ensures (forall x :: x in reg ==> Check(Upgraded(reg, id, deps, running, starts).1, x, {}) == Fine)
            <==> running || !CanReplace(reg, id, deps) || forall d :: d in deps ==> !Reaches(reg, d, id)
  {
    hide Check;
    forall x | x in reg ensures Check(reg, x, {}) == Fine {
      OrderedChecksFine(reg, x);
    }
    if CanReplace(reg, id, deps) {
      ReplaceKeepsStarts(reg, id, deps);
      if d :| d in deps && Reaches(reg, d, id) {
        DependencyReachingBack(reg, id, deps, d);
      }
    }
  }

  predicate UpgradeClosesCycle(reg: Registry, id: Id, deps: seq<Id>) {
    var (r, next) := Upgraded(reg, id, deps, false, true);
    r == Done && Check(reg, id, {}) == Fine && Check(next, id, {}) != Fine
  }

  /** An upgrade, while it is not running, that stops a plugin from starting: b needs a, and
      the new a needs b. */
  lemma UpgradeCanCloseCycle()
    ensures exists ops, id, deps :: UpgradeClosesCycle(Run(map[], ops), id, deps)
  {
    var ops := [Op.Install("a", []), Op.Install("b", ["a"])];
    var reg: Registry := map["a" := [], "b" := ["a"]];
    RunTwo(map[], ops);
    assert Step(map[], ops[0]) == map["a" := []];
    assert Step(map["a" := []], ops[1]) == reg;
    assert Ranked(map[], map[]);
    assert Leads(reg, ["b", "a"], "b", "a");
    InstalledPluginsStart(ops, "a");
    RunKeepsOrder(map[], ops);
    DependencyReachingBack(reg, "a", ["b"], "b");
    assert FirstAbsent(reg, ["b"]) == 1;
    assert UpgradeClosesCycle(Run(map[], ops), "a", ["b"]);
  }
}
