/** Partial configuration updates: the deep merge, and the locked read-modify-write that
    keeps concurrent updates from losing each other. */
module ConfigMerge {
  import opened Wrappers

  type Key = string

  /** A JSON value; arrays and scalars are leaves, which a merge replaces whole. */
  datatype Json = Leaf(text: string) | Obj(fields: map<Key, Json>)

  /** _deep_merge on two objects, for a value under one key: what the patch gives replaces
      what was there, except that two objects are merged. */
  function Merge(base: Json, patch: Json): Json
    decreases patch
  {
    if base.Leaf? || patch.Leaf? then patch
    else
      Obj(map k | k in base.fields.Keys + patch.fields.Keys ::
            if k !in patch.fields then base.fields[k]
            else if k !in base.fields then patch.fields[k]
            else Merge(base.fields[k], patch.fields[k]))
  }

  type Path = seq<Key>

  function Lookup(j: Json, path: Path): Option<Json>
    decreases |path|
  {
    if path == [] then Some(j)
    else if j.Obj? && path[0] in j.fields then Lookup(j.fields[path[0]], path[1..])
    else None
  }

  /** The patch leaves the path alone: it turns off before the path ends. */
  predicate Untouched(patch: Json, path: Path)
    decreases |path|
  {
    && patch.Obj? && path != []
    && (path[0] !in patch.fields || Untouched(patch.fields[path[0]], path[1..]))
  }

  /** Merging the same patch twice is merging it once. */
  lemma {:induction false} MergeIdempotent(base: Json, patch: Json)
    ensures Merge(Merge(base, patch), patch) == Merge(base, patch)
    decreases patch
  {
    if patch.Obj? {
      var once := Merge(base, patch);
      if base.Obj? {
        forall k | k in once.fields ensures Merge(once, patch).fields[k] == once.fields[k] {
          if k in patch.fields {
            if k in base.fields {
              MergeIdempotent(base.fields[k], patch.fields[k]);
            } else {
              MergeSelf(patch.fields[k]);
            }
          }
        }
        assert Merge(once, patch).fields.Keys == once.fields.Keys;
        assert Merge(once, patch).fields == once.fields;
      } else {
        MergeSelf(patch);
      }
    }
  }

  lemma {:induction false} MergeSelf(j: Json)
    ensures Merge(j, j) == j
    decreases j
  {
    if j.Obj? {
      forall k | k in j.fields ensures Merge(j, j).fields[k] == j.fields[k] {
        MergeSelf(j.fields[k]);
      }
      assert Merge(j, j).fields == j.fields;
    }
  }

  lemma {:induction false} UntouchedAbsent(patch: Json, path: Path)
    requires Untouched(patch, path)
    ensures Lookup(patch, path) == None
    decreases |path|
  {
    if path[0] in patch.fields {
      UntouchedAbsent(patch.fields[path[0]], path[1..]);
    }
  }

  /** What the patch does not touch stays as it was, absence included. */
  lemma {:induction false} MergeKeepsUntouched(base: Json, patch: Json, path: Path)
    requires Untouched(patch, path)
    ensures Lookup(Merge(base, patch), path) == Lookup(base, path)
    decreases |path|
  {
    if base.Leaf? {
      UntouchedAbsent(patch, path);
    } else if path[0] in patch.fields {
      if path[0] in base.fields {
        MergeKeepsUntouched(base.fields[path[0]], patch.fields[path[0]], path[1..]);
      } else {
        UntouchedAbsent(patch.fields[path[0]], path[1..]);
      }
    }
  }

  /** Every leaf the patch gives is there afterwards. */
  lemma {:induction false} MergeTakesLeaves(base: Json, patch: Json, path: Path)
    requires Lookup(patch, path).Some? && Lookup(patch, path).value.Leaf?
    ensures Lookup(Merge(base, patch), path) == Lookup(patch, path)
    decreases |path|
  {
    if path != [] && base.Obj? && path[0] in base.fields {
      MergeTakesLeaves(base.fields[path[0]], patch.fields[path[0]], path[1..]);
    }
  }

  /** Where the patch has an object there is an object afterwards. With the two laws above
      this covers every path: one that turns off, one that ends at a leaf, one that ends at an
      object, and one that would go on past a leaf and leads nowhere. */
  lemma {:induction false} MergeTakesObjects(base: Json, patch: Json, path: Path)
    requires Lookup(patch, path).Some? && Lookup(patch, path).value.Obj?
    ensures Lookup(Merge(base, patch), path).Some? && Lookup(Merge(base, patch), path).value.Obj?
    decreases |path|
  {
    if path != [] && base.Obj? && path[0] in base.fields {
      MergeTakesObjects(base.fields[path[0]], patch.fields[path[0]], path[1..]);
    }
  }

  /** Nothing of a shows through c: where both are objects a has no key that c lacks, and
      likewise below each key. */
  predicate Covered(a: Json, c: Json)
    decreases c
  {
    || a.Leaf? || c.Leaf?
    || (a.fields.Keys <= c.fields.Keys
        && forall k :: k in c.fields && k in a.fields ==> Covered(a.fields[k], c.fields[k]))
  }

  lemma {:induction false} CoveredExactly(a: Json, c: Json)
    ensures Merge(a, c) == c <==> Covered(a, c)
    decreases c
  {
    if a.Obj? && c.Obj? {
      var m := Merge(a, c);
      forall k | k in c.fields && k in a.fields
        ensures m.fields[k] == c.fields[k] <==> Covered(a.fields[k], c.fields[k])
      {
        CoveredExactly(a.fields[k], c.fields[k]);
      }
      if a.fields.Keys <= c.fields.Keys {
        assert m.fields.Keys == c.fields.Keys;
        if Covered(a, c) {
          assert m.fields == c.fields;
        }
      } else {
        var k :| k in a.fields.Keys && k !in c.fields.Keys;
        assert k in m.fields;
      }
    }
  }

  /** Wherever a leaf of the first update separates an object before from an object of the
      second, that second object covers the one before. */
  predicate Chains(a: Json, b: Json, c: Json)
    decreases c
  {
    if a.Leaf? || c.Leaf? then true
    else if b.Leaf? then Covered(a, c)
    else forall k :: k in c.fields && k in a.fields && k in b.fields ==> Chains(a.fields[k], b.fields[k], c.fields[k])
  }

  /** Two updates one after the other are the same as one update with the merged patch
      exactly when no object that a leaf of the first replaced shows through the second. */
  lemma {:induction false} MergeAssociates(a: Json, b: Json, c: Json)
    ensures Merge(Merge(a, b), c) == Merge(a, Merge(b, c)) <==> Chains(a, b, c)
    decreases c
  {
    if a.Obj? && b.Obj? && c.Obj? {
      var l, r := Merge(Merge(a, b), c), Merge(a, Merge(b, c));
      assert l.fields.Keys == r.fields.Keys;
      forall k | k in l.fields
        ensures l.fields[k] == r.fields[k] <==>
                !(k in a.fields && k in b.fields && k in c.fields) || Chains(a.fields[k], b.fields[k], c.fields[k])
      {
        if k in a.fields && k in b.fields && k in c.fields {
          MergeAssociates(a.fields[k], b.fields[k], c.fields[k]);
        }
      }
      if Chains(a, b, c) {
        assert l.fields == r.fields;
      }
    } else if a.Obj? && c.Obj? {
      CoveredExactly(a, c);
    }
  }

  /** A leaf in between forgets what was below it. */
  lemma TwoUpdatesAreNotOne()
    ensures exists a, b, c :: Merge(Merge(a, b), c) != Merge(a, Merge(b, c))
  {
    var deep := Obj(map["x" := Leaf("1")]);
    var a, b, c := Obj(map["k" := deep]), Obj(map["k" := Leaf("0")]), Obj(map["k" := Obj(map[])]);
    MergeAssociates(a, b, c);
    assert "x" in deep.fields.Keys && "x" !in c.fields["k"].fields.Keys;
    assert !Covered(deep, c.fields["k"]);
    assert !Chains(a.fields["k"], b.fields["k"], c.fields["k"]);
  }

  // ------------------------------------------------------------ PUT /config, under its lock

  const MODEL_ID: Key := "model_id"

  /** A request body whose profile is an object; model_id is dropped from it. */
  function PatchOf(body: map<Key, Json>): Json {
    Obj(body - {MODEL_ID})
  }

  /** What GET_CONFIG's answer is merged onto: anything but an object counts as empty. */
  function BaseOf(core: Json): Json {
    if core.Obj? then core else Obj(map[])
  }

  datatype Phase = Idle | Locked(patch: Json) | Fetched(patch: Json, base: Json)

  /** The Core's runtime profile, the lock's holder, the request threads, and the patches
      stored so far in the order their threads took the lock. */
  datatype World = World(core: Json, holder: Option<nat>, threads: map<nat, Phase>, stored: seq<Json>)

  datatype Action =
    | Acquire(t: nat, body: map<Key, Json>)
    | Get(t: nat, ok: bool)
    | Put(t: nat, ok: bool)

  function PhaseOf(w: World, t: nat): Phase {
    if t in w.threads then w.threads[t] else Idle
  }

  predicate Enabled(w: World, a: Action) {
    match a
    case Acquire(t, _) => w.holder == None && PhaseOf(w, t).Idle?
    case Get(t, _) => PhaseOf(w, t).Locked?
    case Put(t, _) => PhaseOf(w, t).Fetched?
  }

  /** GET and SET may fail, as when the Core is unreachable; then the lock is given up. */
  function Apply(w: World, a: Action): World
    requires Enabled(w, a)
  {
    match a
    case Acquire(t, body) => w.(holder := Some(t), threads := w.threads[t := Locked(PatchOf(body))])
    case Get(t, ok) =>
      if ok then w.(threads := w.threads[t := Fetched(PhaseOf(w, t).patch, BaseOf(w.core))])
      else w.(holder := None, threads := w.threads[t := Idle])
    case Put(t, ok) =>
      var p := PhaseOf(w, t);
      var idle := w.(holder := None, threads := w.threads[t := Idle]);
      if ok then idle.(core := Merge(p.base, p.patch), stored := w.stored + [p.patch]) else idle
  }

  predicate CanRun(w: World, run: seq<Action>)
    decreases |run|
  {
    run == [] || (Enabled(w, run[0]) && CanRun(Apply(w, run[0]), run[1..]))
  }

  function Run(w: World, run: seq<Action>): World
    requires CanRun(w, run)
    decreases |run|
  {
    if run == [] then w else Run(Apply(w, run[0]), run[1..])
  }

  /** One update after the other, nobody else in between. */
  function Fold(core: Json, patches: seq<Json>): Json
    decreases |patches|
  {
    if patches == [] then core
    else Merge(BaseOf(Fold(core, patches[..|patches| - 1])), patches[|patches| - 1])
  }

  predicate SparesModel(patch: Json) {
    patch.Obj? && MODEL_ID !in patch.fields
  }

  ghost predicate Inv(init: Json, w: World) {
    && w.core == Fold(init, w.stored)
    && (forall t: nat :: !PhaseOf(w, t).Idle? ==> w.holder == Some(t) && SparesModel(PhaseOf(w, t).patch))
    && (forall t: nat :: PhaseOf(w, t).Fetched? ==> PhaseOf(w, t).base == BaseOf(w.core))
    && (forall i :: 0 <= i < |w.stored| ==> SparesModel(w.stored[i]))
  }

  lemma StepKeepsInv(init: Json, w: World, a: Action)
    requires Inv(init, w) && Enabled(w, a)
    ensures Inv(init, Apply(w, a))
  {
    var n := Apply(w, a);
    if a.Put? && a.ok {
      assert n.stored[..|n.stored| - 1] == w.stored;
    }
    forall t: nat ensures PhaseOf(n, t) == if t == a.t then n.threads[a.t] else PhaseOf(w, t) {
    }
  }

  lemma {:induction false} RunKeepsInv(init: Json, w: World, run: seq<Action>)
    requires Inv(init, w) && CanRun(w, run)
    ensures Inv(init, Run(w, run))
    decreases |run|
  {
    hide Inv;
    hide Apply;
    if run != [] {
      StepKeepsInv(init, w, run[0]);
      RunKeepsInv(init, Apply(w, run[0]), run[1..]);
    }
  }

  lemma {:induction false} FoldKeepsModel(core: Json, patches: seq<Json>)
    requires forall i :: 0 <= i < |patches| ==> SparesModel(patches[i])
    ensures Lookup(Fold(core, patches), [MODEL_ID]) == Lookup(core, [MODEL_ID])
    decreases |patches|
  {
    if patches != [] {
      var last := |patches| - 1;
      FoldKeepsModel(core, patches[..last]);
      MergeKeepsUntouched(BaseOf(Fold(core, patches[..last])), patches[last], [MODEL_ID]);
    }
  }

  /** Every interleaving of any number of requests: the Core's configuration is the result
      of the stored updates applied one after the other, each whole, and no request changes
      which model is active. */
  lemma UpdatesLinearise(init: Json, run: seq<Action>)
    requires CanRun(World(init, None, map[], []), run)
    ensures var w := Run(World(init, None, map[], []), run);
            w.core == Fold(init, w.stored) && Lookup(w.core, ["model_id"]) == Lookup(init, ["model_id"])
  {
    var start := World(init, None, map[], []);
    RunKeepsInv(init, start, run);
    FoldKeepsModel(init, Run(start, run).stored);
  }

  /** The last update to store always shows in full: each leaf it gave is in the Core. */
  lemma LastUpdateVisible(init: Json, run: seq<Action>, path: Path)
    requires CanRun(World(init, None, map[], []), run)
    requires var s := Run(World(init, None, map[], []), run).stored;
             s != [] && Lookup(s[|s| - 1], path).Some? && Lookup(s[|s| - 1], path).value.Leaf?
    ensures var w := Run(World(init, None, map[], []), run);
            Lookup(w.core, path) == Lookup(w.stored[|w.stored| - 1], path)
  {
    UpdatesLinearise(init, run);
    var w := Run(World(init, None, map[], []), run);
    var last := |w.stored| - 1;
    MergeTakesLeaves(BaseOf(Fold(init, w.stored[..last])), w.stored[last], path);
  }

  /** The patch of a request: its body without model_id, and nothing else missing. */
  function Requested(body: map<Key, Json>): Json {
    Obj(map k | k in body && k != "model_id" :: body[k])
  }

  ghost predicate Asked(run: seq<Action>, patch: Json) {
    exists a <- run :: a.Acquire? && patch == Requested(a.body)
  }

  /** Everything stored or still held was asked for by a request of the run. */
  ghost predicate AllAsked(run: seq<Action>, w: World) {
    && (forall p <- w.stored :: Asked(run, p))
    && (forall t: nat :: !PhaseOf(w, t).Idle? ==> Asked(run, PhaseOf(w, t).patch))
  }

  lemma StepAsked(run: seq<Action>, w: World, a: Action)
    requires AllAsked(run, w) && Enabled(w, a) && a in run
    ensures AllAsked(run, Apply(w, a))
  {
    var n := Apply(w, a);
    hide Asked;
    if a.Acquire? {
      assert PatchOf(a.body) == Requested(a.body);
      AskedBy(run, a);
    }
    forall t: nat ensures PhaseOf(n, t) == if t == a.t then n.threads[a.t] else PhaseOf(w, t) {
    }
  }

  lemma AskedBy(run: seq<Action>, a: Action)
    requires a in run && a.Acquire?
    ensures Asked(run, Requested(a.body))
  {
  }

  lemma {:induction false} RunAsked(all: seq<Action>, w: World, run: seq<Action>)
    requires AllAsked(all, w) && CanRun(w, run) && forall a <- run :: a in all
    ensures AllAsked(all, Run(w, run))
    decreases |run|
  {
    hide AllAsked;
    hide Apply;
    hide Enabled;
    if run != [] {
      StepAsked(all, w, run[0]);
      RunAsked(all, Apply(w, run[0]), run[1..]);
    }
  }

  /** What is folded into the Core are requests of the run, each with its whole body but for
      model_id. */
  lemma StoredWereRequested(init: Json, run: seq<Action>, i: nat)
    requires CanRun(World(init, None, map[], []), run) && i < |Run(World(init, None, map[], []), run).stored|
    ensures exists a <- run :: a.Acquire? && Run(World(init, None, map[], []), run).stored[i] == Requested(a.body)
  {
    var w := World(init, None, map[], []);
    RunAsked(run, w, run);
    var p := Run(w, run).stored[i];
    assert p in Run(w, run).stored;
    assert Asked(run, p);
  }

  /** One request, nobody else in between and the Core within reach: it is stored, the lock is
      free again, and the Core holds the merge. */
  lemma UpdateAlone(w: World, t: nat, body: map<Key, Json>)
    requires w.holder == None && PhaseOf(w, t).Idle?
    ensures var run := [Acquire(t, body), Get(t, true), Put(t, true)];
            && CanRun(w, run)
            && var n := Run(w, run);
               && n.holder == None && PhaseOf(n, t).Idle? && n.stored == w.stored + [Requested(body)]
               && n.core == Merge(if w.core.Obj? then w.core else Obj(map[]), Requested(body))
  {
    var a, b, c := Acquire(t, body), Get(t, true), Put(t, true);
    assert PatchOf(body) == Requested(body);
    assert [a, b, c][1..] == [b, c] && [b, c][1..] == [c] && [c][1..] == [];
    var w1 := Apply(w, a);
    var w2 := Apply(w1, b);
    hide Merge;
    assert CanRun(w2, [c]) && Run(w2, [c]) == Apply(w2, c);
    assert CanRun(w1, [b, c]) && Run(w1, [b, c]) == Run(w2, [c]);
  }

  /** A request whose GET or SET fails stores nothing, leaves the Core as it is and gives up
      the lock; nothing but a SET that succeeds ever changes the Core. */
  lemma FailureStoresNothing(w: World, a: Action)
    requires Enabled(w, a)
    ensures var n := Apply(w, a);
            && ((a.Get? || a.Put?) && !a.ok ==> n == World(w.core, None, w.threads[a.t := Idle], w.stored))
            && (!(a.Put? && a.ok) ==> n.core == w.core && n.stored == w.stored)
            && (a.Put? && a.ok ==> |n.stored| == |w.stored| + 1)
  {
  }
}
