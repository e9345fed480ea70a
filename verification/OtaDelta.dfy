/** Completing a delta package with the files of the current release, and checking a staged
    tree against its manifest. */
module OtaDelta {
  type Path = string

  type Content = seq<int>

  type Digest = seq<int>

  type Tree = map<Path, Content>

  const MANIFEST: Path := "RELEASE_MANIFEST.json"

  /** One line of files_sha256. */
  datatype Entry = Entry(path: Path, want: Digest)

  /** The lines of one JSON object: no path twice. */
  predicate Manifest(files: seq<Entry>) {
    forall i, j :: 0 <= i < j < |files| ==> files[i].path != files[j].path
  }

  predicate HasParent(p: Path, i: nat)
    requires i <= |p|
    decreases |p| - i
  {
    if |p| - i < 2 then false
    else
      || (p[i] == '.' && p[i + 1] == '.' && (i == 0 || p[i - 1] == '/') && (i + 2 == |p| || p[i + 2] == '/'))
      || HasParent(p, i + 1)
  }

  /** A path that starts at the root, or has '..' among its parts. */
  predicate Illegal(p: Path) {
    (p != "" && p[0] == '/') || HasParent(p, 0)
  }

  predicate Has(hash: Content -> Digest, tree: Tree, e: Entry) {
    e.path in tree && hash(tree[e.path]) == e.want
  }

  /** Either the payload or the current release has this very file, under an allowed path. */
  predicate Available(hash: Content -> Digest, payload: Tree, current: Tree, e: Entry) {
    !Illegal(e.path) && (Has(hash, payload, e) || Has(hash, current, e))
  }

  function SourceOf(hash: Content -> Digest, payload: Tree, current: Tree, e: Entry): Content
    requires Available(hash, payload, current, e)
  {
    if Has(hash, payload, e) then payload[e.path] else current[e.path]
  }

  /** The first entry at or after k that is not available, or |files|. */
  function FirstBad(hash: Content -> Digest, payload: Tree, current: Tree, files: seq<Entry>, k: nat): (r: nat)
    requires k <= |files|
    ensures k <= r <= |files| && (r < |files| ==> !Available(hash, payload, current, files[r]))
    ensures forall i :: k <= i < r ==> Available(hash, payload, current, files[i])
    decreases |files| - k
  {
    if k == |files| || !Available(hash, payload, current, files[k]) then k
    else FirstBad(hash, payload, current, files, k + 1)
  }

  /** The side directory after the first k entries were copied over what it held. */
  function Copied(hash: Content -> Digest, payload: Tree, current: Tree, files: seq<Entry>, leftover: Tree, k: nat): Tree
    requires k <= |files| && forall i :: 0 <= i < k ==> Available(hash, payload, current, files[i])
  {
    if k == 0 then leftover
    else
      var e := files[k - 1];
      Copied(hash, payload, current, files, leftover, k - 1)[e.path := SourceOf(hash, payload, current, e)]
  }

  datatype Result = Ok(tree: Tree) | NoFiles | IllegalPath(path: Path) | BaseMismatch(path: Path)

  /** How completing a delta ends, and what is left in the side directory. */
  function Materialized(hash: Content -> Digest, payload: Tree, current: Tree, files: seq<Entry>, leftover: Tree): (Result, Tree) {
    var bad := FirstBad(hash, payload, current, files, 0);
    if files == [] then (NoFiles, leftover)
    else
      var full := Copied(hash, payload, current, files, leftover, bad);
      if bad < |files| then
        (if Illegal(files[bad].path) then IllegalPath(files[bad].path) else BaseMismatch(files[bad].path), full)
      else (Ok(if MANIFEST in payload then full[MANIFEST := payload[MANIFEST]] else full), map[])
  }

  /** The staging area of one version: the side directory <staging>.full, which is made
      when missing, kept when a merge fails, and renamed away when one succeeds. */
  class StagingArea {
    var full: Tree

    constructor ()
      ensures full == map[]
    {
      full := map[];
    }

    /** _materialize_delta. */
    method MaterializeDelta(hash: Content -> Digest, payload: Tree, current: Tree, files: seq<Entry>)
      returns (r: Result)
      modifies this
      ensures (r, full) == Materialized(hash, payload, current, files, old(full))
    {
      hide Illegal;
      if files == [] { return NoFiles; }
      ghost var leftover := full;
      for i := 0 to |files|
        invariant FirstBad(hash, payload, current, files, i) == FirstBad(hash, payload, current, files, 0)
        invariant forall k :: 0 <= k < i ==> Available(hash, payload, current, files[k])
        invariant full == Copied(hash, payload, current, files, leftover, i)
      {
        var e := files[i];
        if Illegal(e.path) { return IllegalPath(e.path); }
        if Has(hash, payload, e) {
          full := full[e.path := payload[e.path]];
        } else if Has(hash, current, e) {
          full := full[e.path := current[e.path]];
        } else {
          return BaseMismatch(e.path);
        }
      }
      var tree := full;
      if MANIFEST in payload {
        tree := tree[MANIFEST := payload[MANIFEST]];
      }
      full := map[];
      return Ok(tree);
    }
  }

  /** The manifest is there, something is listed, and every listed file has its digest. */
  predicate Verified(hash: Content -> Digest, tree: Tree, files: seq<Entry>) {
    MANIFEST in tree && files != [] && forall i :: 0 <= i < |files| ==> Has(hash, tree, files[i])
  }

  /** _verify_manifest; files is what the tree's manifest lists, if there is one. */
  method VerifyManifest(hash: Content -> Digest, tree: Tree, files: seq<Entry>) returns (ok: bool)
    ensures ok == Verified(hash, tree, files)
  {
    if MANIFEST !in tree { return false; }
    if files == [] { return false; }
    for i := 0 to |files|
      invariant forall k :: 0 <= k < i ==> Has(hash, tree, files[k])
    {
      if !Has(hash, tree, files[i]) { return false; }
    }
    return true;
  }

  function Paths(files: seq<Entry>): set<Path> {
    set e <- files :: e.path
  }

  lemma PathsStep(files: seq<Entry>)
    requires files != []
    ensures Paths(files) == Paths(files[..|files| - 1]) + {files[|files| - 1].path}
  {
    var n := |files| - 1;
    assert files == files[..n] + [files[n]];
  }

  lemma {:induction false} CopiedTree(hash: Content -> Digest, payload: Tree, current: Tree, files: seq<Entry>, leftover: Tree, k: nat)
    requires Manifest(files) && k <= |files| && forall i :: 0 <= i < k ==> Available(hash, payload, current, files[i])
    ensures var tree := Copied(hash, payload, current, files, leftover, k);
            && tree.Keys == leftover.Keys + Paths(files[..k])
            && forall i :: 0 <= i < k ==> Has(hash, tree, files[i])
    decreases k
  {
    hide Illegal;
    hide Paths;
    if k > 0 {
      assert files[..k][..k - 1] == files[..k - 1];
      PathsStep(files[..k]);
      CopiedTree(hash, payload, current, files, leftover, k - 1);
      var tree := Copied(hash, payload, current, files, leftover, k);
      forall i | 0 <= i < k - 1 ensures Has(hash, tree, files[i]) {
        assert files[i].path != files[k - 1].path;
      }
    } else {
      NoPaths(files[..k]);
    }
  }

  lemma NoPaths(files: seq<Entry>)
    requires files == []
    ensures Paths(files) == {}
  {
  }

  /** A completed tree: the side directory with every listed file under its digest, and then
      the package's own manifest over it. */
  lemma CompletedTree(hash: Content -> Digest, payload: Tree, current: Tree, files: seq<Entry>, leftover: Tree)
    returns (full: Tree)
    requires Manifest(files) && Materialized(hash, payload, current, files, leftover).0.Ok?
    ensures Materialized(hash, payload, current, files, leftover).0.tree
            == (if MANIFEST in payload then full[MANIFEST := payload[MANIFEST]] else full)
    ensures full.Keys == leftover.Keys + Paths(files) && files != []
    ensures forall i :: 0 <= i < |files| ==> Has(hash, full, files[i])
  {
    hide Illegal;
    hide Paths;
    hide Has;
    full := Copied(hash, payload, current, files, leftover, |files|);
    CopiedTree(hash, payload, current, files, leftover, |files|);
    assert files[..|files|] == files;
  }

  /** A completed delta holds the listed files, the manifest, and whatever an earlier failed
      merge of the same version left behind: exactly the former when the leftover names
      nothing else. */
  lemma DeltaIsComplete(hash: Content -> Digest, payload: Tree, current: Tree, files: seq<Entry>, leftover: Tree)
    requires Manifest(files) && MANIFEST in payload && Materialized(hash, payload, current, files, leftover).0.Ok?
    ensures var tree := Materialized(hash, payload, current, files, leftover).0.tree;
            && tree.Keys == leftover.Keys + Paths(files) + {MANIFEST}
            && (tree.Keys == Paths(files) + {MANIFEST} <==> leftover.Keys <= Paths(files) + {MANIFEST})
  {
    hide Paths;
    hide Materialized;
    var full := CompletedTree(hash, payload, current, files, leftover);
  }

  /** A failed merge leaves what it had copied, a successful one leaves nothing. */
  lemma LeftBehind(hash: Content -> Digest, payload: Tree, current: Tree, files: seq<Entry>, leftover: Tree)
    requires Manifest(files)
    ensures var (r, left) := Materialized(hash, payload, current, files, leftover);
            if r.Ok? then left == map[]
            else left.Keys == leftover.Keys + Paths(files[..FirstBad(hash, payload, current, files, 0)])
  {
    hide Paths;
    var bad := FirstBad(hash, payload, current, files, 0);
    CopiedTree(hash, payload, current, files, leftover, bad);
    if files == [] {
      NoPaths(files[..bad]);
    }
  }

  /** It passes the later full check exactly when the manifest does not list itself under a
      digest that is not its own, whatever was left behind. */
  lemma DeltaVerifies(hash: Content -> Digest, payload: Tree, current: Tree, files: seq<Entry>, leftover: Tree)
    requires Manifest(files) && MANIFEST in payload && Materialized(hash, payload, current, files, leftover).0.Ok?
    ensures Verified(hash, Materialized(hash, payload, current, files, leftover).0.tree, files)
            <==> forall e <- files :: e.path == MANIFEST ==> e.want == hash(payload[MANIFEST])
  {
    hide Materialized;
    hide Paths;
    var full := CompletedTree(hash, payload, current, files, leftover);
    var tree := Materialized(hash, payload, current, files, leftover).0.tree;
    forall i | 0 <= i < |files|
      ensures Has(hash, tree, files[i]) <==> (files[i].path == MANIFEST ==> files[i].want == hash(payload[MANIFEST]))
    {
      assert Has(hash, full, files[i]);
    }
    if Verified(hash, tree, files) {
      forall e <- files ensures e.path == MANIFEST ==> e.want == hash(payload[MANIFEST]) {
        var i :| 0 <= i < |files| && files[i] == e;
        assert Has(hash, tree, files[i]);
      }
    } else {
      var i :| 0 <= i < |files| && !Has(hash, tree, files[i]);
      assert files[i] in files;
    }
  }

  /** Two packages of one version, each with its manifest: the first lists a and b and fails
      at b, the second lists only b and succeeds, passes the check, and its tree still
      holds a. */
  ghost predicate Survives(hash: Content -> Digest, first: Tree, second: Tree, want: Digest) {
    var f1, f2 := [Entry("a", want), Entry("b", want)], [Entry("b", want)];
    var (r1, left) := Materialized(hash, first, map[], f1, map[]);
    var (r2, _) := Materialized(hash, second, map[], f2, left);
    && MANIFEST in first && MANIFEST in second && "a" !in second
    && r1.BaseMismatch? && r2.Ok? && Verified(hash, r2.tree, f2) && "a" in r2.tree
  }

  /** A package that has a and not b, both listed, with nothing in the current release. */
  lemma FirstFails(hash: Content -> Digest, first: Tree, want: Digest)
    requires Has(hash, first, Entry("a", want)) && "b" !in first
    ensures var (r, left) := Materialized(hash, first, map[], [Entry("a", want), Entry("b", want)], map[]);
            r.BaseMismatch? && "a" in left
  {
    hide Illegal;
    hide Materialized;
    var files := [Entry("a", want), Entry("b", want)];
    LettersLegal();
    assert FirstBad(hash, first, map[], files, 1) == 1 && FirstBad(hash, first, map[], files, 0) == 1;
    EndsAt(hash, first, map[], files, map[]);
    LeftBehind(hash, first, map[], files, map[]);
    assert files[0] in files[..1];
  }

  lemma SecondSucceeds(hash: Content -> Digest, second: Tree, want: Digest, left: Tree)
    requires Has(hash, second, Entry("b", want)) && MANIFEST in second && "a" in left
    ensures var files := [Entry("b", want)];
            var r := Materialized(hash, second, map[], files, left).0;
            r.Ok? && Verified(hash, r.tree, files) && "a" in r.tree
  {
    hide Illegal;
    hide Materialized;
    var files := [Entry("b", want)];
    LettersLegal();
    assert FirstBad(hash, second, map[], files, 1) == 1 && FirstBad(hash, second, map[], files, 0) == 1;
    EndsAt(hash, second, map[], files, left);
    DeltaIsComplete(hash, second, map[], files, left);
    DeltaVerifies(hash, second, map[], files, left);
  }

  lemma StaleFileSurvives()
    ensures exists hash, first, second, want :: Survives(hash, first, second, want)
  {
    hide Materialized;
    hide Verified;
    var hash: Content -> Digest := c => c;
    var want: Digest := [9];
    var first: Tree := map["a" := want, MANIFEST := [1]];
    var second: Tree := map["b" := want, MANIFEST := [2]];
    FirstFails(hash, first, want);
    var left := Materialized(hash, first, map[], [Entry("a", want), Entry("b", want)], map[]).1;
    SecondSucceeds(hash, second, want, left);
    assert Survives(hash, first, second, want);
  }

  /** How the walk ends, from its first bad entry. */
  lemma EndsAt(hash: Content -> Digest, payload: Tree, current: Tree, files: seq<Entry>, leftover: Tree)
    requires files != []
    ensures var bad, r := FirstBad(hash, payload, current, files, 0), Materialized(hash, payload, current, files, leftover).0;
            if bad == |files| then r.Ok?
            else r == if Illegal(files[bad].path) then IllegalPath(files[bad].path) else BaseMismatch(files[bad].path)
  {
    hide Illegal;
    hide Copied;
  }

  lemma LettersLegal()
    ensures !Illegal("a") && !Illegal("b")
  {
    assert !HasParent("a", 0);
    assert !HasParent("b", 0);
  }

  /** A manifest that fails it: it lists itself under a digest that the release in force happens to
      satisfy, and the package's own manifest does not. */
  lemma SelfListingFails()
    ensures exists hash: Content -> Digest, payload: Tree, current: Tree, files: seq<Entry> ::
              && Manifest(files) && MANIFEST in payload && Materialized(hash, payload, current, files, map[]).0.Ok?
              && !Verified(hash, Materialized(hash, payload, current, files, map[]).0.tree, files)
  {
    var hash: Content -> Digest := c => c;
    var payload: Tree, current: Tree := map[MANIFEST := []], map[MANIFEST := [1]];
    var e := Entry(MANIFEST, [1]);
    var files := [e];
    assert !Illegal(MANIFEST) by { ManifestLegal(0); }
    assert FirstBad(hash, payload, current, files, 1) == 1;
    assert FirstBad(hash, payload, current, files, 0) == 1;
    assert e in files;
    DeltaVerifies(hash, payload, current, files, map[]);
  }

  lemma {:induction false} ManifestLegal(i: nat)
    requires i <= |MANIFEST|
    ensures !HasParent(MANIFEST, i)
    decreases |MANIFEST| - i
  {
    if i < |MANIFEST| {
      ManifestLegal(i + 1);
    }
  }

  /** With a hash that tells contents apart, a completed delta and any verified full package
      of the same manifest hold the same bytes at every listed path other than the
      manifest's own. */
  lemma DeltaRefinesFull(hash: Content -> Digest, payload: Tree, current: Tree, files: seq<Entry>, leftover: Tree,
                         complete: Tree, e: Entry)
    requires Manifest(files) && Materialized(hash, payload, current, files, leftover).0.Ok?
    requires Verified(hash, complete, files) && e in files && e.path != MANIFEST
    requires forall x, y :: hash(x) == hash(y) ==> x == y
    ensures var tree := Materialized(hash, payload, current, files, leftover).0.tree;
            e.path in tree && e.path in complete && tree[e.path] == complete[e.path]
  {
    hide Materialized;
    hide Paths;
    var full := CompletedTree(hash, payload, current, files, leftover);
    var i :| 0 <= i < |files| && files[i] == e;
    assert Has(hash, full, files[i]);
    assert Has(hash, complete, files[i]);
  }

  // ------------------------------------------------------------ which paths are allowed

  /** Where the first part of a path ends. */
  function FirstSlash(p: Path): (k: nat)
    ensures k <= |p| && (forall i :: 0 <= i < k ==> p[i] != '/') && (k < |p| ==> p[k] == '/')
    decreases |p|
  {
    if p == [] || p[0] == '/' then 0 else 1 + FirstSlash(p[1..])
  }

  /** The parts of a path between its slashes. */
  function Parts(p: Path): seq<string>
    decreases |p|
  {
    var k := FirstSlash(p);
    if k == |p| then [p] else [p[..k]] + Parts(p[k + 1..])
  }

  lemma {:induction false} ParentBehind(p: Path, k: nat, i: nat)
    requires k < i <= |p| && p[k] == '/'
    ensures HasParent(p, i) <==> HasParent(p[k + 1..], i - k - 1)
    decreases |p| - i
  {
    if |p| - i >= 2 {
      ParentBehind(p, k, i + 1);
    }
  }

  /** Inside the first part there is no parent but the whole part. */
  lemma {:induction false} ParentInFirst(p: Path, k: nat, i: nat)
    requires k == FirstSlash(p) && 1 <= i <= k
    ensures HasParent(p, i) <==> k < |p| && HasParent(p, k + 1)
    decreases k - i
  {
    if i < k {
      ParentInFirst(p, k, i + 1);
    }
  }

  /** A path is refused exactly when it begins at the root or one of its parts is '..'. */
  lemma IllegalExactly(p: Path)
    ensures Illegal(p) <==> (p != "" && p[0] == '/') || ".." in Parts(p)
  {
    ParentIsPart(p);
  }

  lemma FirstIsParent(p: Path, k: nat)
    requires k == FirstSlash(p)
    ensures p[..k] == ".." <==> k == 2 && p[0] == '.' && p[1] == '.'
    ensures k == |p| ==> p[..k] == p
  {
  }

  lemma {:induction false} ParentIsPart(p: Path)
    ensures HasParent(p, 0) <==> ".." in Parts(p)
    decreases |p|
  {
    var k := FirstSlash(p);
    if k > 0 {
      ParentInFirst(p, k, 1);
    }
    FirstIsParent(p, k);
    if k < |p| {
      ParentBehind(p, k, k + 1);
      ParentIsPart(p[k + 1..]);
      assert ".." in Parts(p) <==> p[..k] == ".." || ".." in Parts(p[k + 1..]);
    }
  }

  // ------------------------------------------------------------ what a completed delta holds

  lemma {:induction false} CopiedAt(hash: Content -> Digest, payload: Tree, current: Tree, files: seq<Entry>, leftover: Tree,
                                    k: nat, p: Path)
    requires Manifest(files) && k <= |files| && forall i :: 0 <= i < k ==> Available(hash, payload, current, files[i])
    ensures var tree := Copied(hash, payload, current, files, leftover, k);
            && (forall i :: 0 <= i < k && files[i].path == p ==> p in tree && tree[p] == SourceOf(hash, payload, current, files[i]))
            && ((forall i :: 0 <= i < k ==> files[i].path != p) ==>
                  (p in tree <==> p in leftover) && (p in leftover ==> tree[p] == leftover[p]))
    decreases k
  {
    hide Illegal;
    hide Has;
    if k > 0 {
      CopiedAt(hash, payload, current, files, leftover, k - 1, p);
    }
  }

  /** Completing succeeds exactly when something is listed and every entry is allowed and to be
      had. Then the manifest is the package's own, a listed file is the package's where that
      has it and the current release's otherwise, and the rest is what was left over. */
  lemma DeltaExactly(hash: Content -> Digest, payload: Tree, current: Tree, files: seq<Entry>, leftover: Tree, p: Path)
    requires Manifest(files)
    ensures var r := Materialized(hash, payload, current, files, leftover).0;
            && (r.Ok? <==> files != [] && forall i :: 0 <= i < |files| ==> Available(hash, payload, current, files[i]))
            && (r.Ok? && "RELEASE_MANIFEST.json" in payload ==>
                  "RELEASE_MANIFEST.json" in r.tree && r.tree["RELEASE_MANIFEST.json"] == payload["RELEASE_MANIFEST.json"])
            && (r.Ok? && p != "RELEASE_MANIFEST.json" ==>
                  && (forall i :: 0 <= i < |files| && files[i].path == p ==>
                        p in r.tree && r.tree[p] == if Has(hash, payload, files[i]) then payload[p] else current[p])
                  && ((forall i :: 0 <= i < |files| ==> files[i].path != p) ==>
                        (p in r.tree <==> p in leftover) && (p in leftover ==> r.tree[p] == leftover[p])))
  {
    var bad := FirstBad(hash, payload, current, files, 0);
    CopiedAt(hash, payload, current, files, leftover, bad, p);
    hide Illegal;
    hide Copied;
    hide FirstBad;
  }
}
