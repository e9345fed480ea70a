/** Bringing the nodes of an ONNX graph into an order in which every input is available
    before it is used. */
module TopoSort {
  type Name = string

  datatype Node = Node(name: Name, inputs: seq<Name>, outputs: seq<Name>)

  /** The empty name stands for an omitted optional input or output. */
  predicate Ready(n: Node, available: set<Name>) {
    forall i <- n.inputs :: i == "" || i in available
  }

  function Provides(n: Node): set<Name> {
    set o | o in n.outputs && o != ""
  }

  function AllProvided(nodes: seq<Node>): set<Name>
    decreases |nodes|
  {
    if nodes == [] then {} else AllProvided(nodes[..|nodes| - 1]) + Provides(nodes[|nodes| - 1])
  }

  /** Every node finds its inputs among the graph's and those of the nodes before it. */
  predicate Sorted(nodes: seq<Node>, available: set<Name>) {
    forall i :: 0 <= i < |nodes| ==> Ready(nodes[i], available + AllProvided(nodes[..i]))
  }

  predicate Permutes(p: seq<Node>, nodes: seq<Node>) {
    multiset(p) == multiset(nodes)
  }

  lemma AllProvidedStep(nodes: seq<Node>, n: Node)
    ensures AllProvided(nodes + [n]) == AllProvided(nodes) + Provides(n)
  {
    assert (nodes + [n])[..|nodes|] == nodes;
  }

  lemma SortedStep(nodes: seq<Node>, n: Node, available: set<Name>)
    requires Sorted(nodes, available) && Ready(n, available + AllProvided(nodes))
    ensures Sorted(nodes + [n], available)
  {
    hide Ready;
    var s := nodes + [n];
    forall i | 0 <= i < |s| ensures Ready(s[i], available + AllProvided(s[..i])) {
      assert s[..i] == nodes[..i];
      assert i == |nodes| ==> nodes[..i] == nodes;
    }
  }

  /** is_topologically_sorted. */
  method IsSorted(nodes: seq<Node>, inputs: set<Name>) returns (yes: bool)
    ensures yes == Sorted(nodes, inputs)
  {
    hide Ready;
    hide Provides;
    var available := inputs;
    for i := 0 to |nodes|
      invariant available == inputs + AllProvided(nodes[..i])
      invariant forall j :: 0 <= j < i ==> Ready(nodes[j], inputs + AllProvided(nodes[..j]))
    {
      if !Ready(nodes[i], available) { return false; }
      AllProvidedStep(nodes[..i], nodes[i]);
      assert nodes[..i + 1] == nodes[..i] + [nodes[i]];
      available := available + Provides(nodes[i]);
    }
    return true;
  }

  /** Nothing more can be placed: no node of rest is ready after the nodes of placed. */
  predicate Stuck(placed: seq<Node>, rest: seq<Node>, inputs: set<Name>) {
    rest != [] && forall n <- rest :: !Ready(n, inputs + AllProvided(placed))
  }

  lemma {:induction false} ProvidedByMembers(q: seq<Node>, placed: seq<Node>)
    requires forall n :: n in q ==> n in placed
    ensures AllProvided(q) <= AllProvided(placed)
    decreases |q|
  {
    if q != [] {
      var last := |q| - 1;
      ProvidedByMembers(q[..last], placed);
      assert q[last] in q;
      MemberProvides(q[last], placed);
    }
  }

  lemma {:induction false} MemberProvides(n: Node, placed: seq<Node>)
    requires n in placed
    ensures Provides(n) <= AllProvided(placed)
    decreases |placed|
  {
    var last := |placed| - 1;
    if placed[last] != n {
      assert n in placed[..last];
      MemberProvides(n, placed[..last]);
    }
  }

  lemma ReadyGrows(n: Node, small: set<Name>, big: set<Name>)
    requires Ready(n, small) && small <= big
    ensures Ready(n, big)
  {
  }

  /** A prefix of a sorted order that uses only placed nodes can never be left: its next
      node would be ready, so it is placed as well. */
  lemma {:induction false} PrefixPlaced(p: seq<Node>, placed: seq<Node>, rest: seq<Node>, inputs: set<Name>, k: nat)
    requires Sorted(p, inputs) && multiset(p) <= multiset(placed) + multiset(rest) && Stuck(placed, rest, inputs)
    requires k <= |p|
    ensures multiset(p[..k]) <= multiset(placed)
    decreases k
  {
    hide Ready;
    if k > 0 {
      PrefixPlaced(p, placed, rest, inputs, k - 1);
      var q, n := p[..k - 1], p[k - 1];
      assert p[..k] == q + [n];
      assert forall m :: m in q ==> m in multiset(q);
      ProvidedByMembers(q, placed);
      ReadyGrows(n, inputs + AllProvided(q), inputs + AllProvided(placed));
      assert n !in rest;
      assert n !in multiset(rest);
      TakeCounts(p, k, n);
    }
  }

  lemma TakeCounts(p: seq<Node>, k: nat, n: Node)
    requires k <= |p|
    ensures multiset(p[..k])[n] <= multiset(p)[n]
  {
    assert p == p[..k] + p[k..];
  }

  lemma NotAllPlaced(p: seq<Node>, placed: seq<Node>, rest: seq<Node>)
    requires multiset(p) == multiset(placed) + multiset(rest) && rest != []
    ensures !(multiset(p) <= multiset(placed))
  {
    assert rest[0] in multiset(rest);
    assert multiset(p)[rest[0]] == multiset(placed)[rest[0]] + multiset(rest)[rest[0]];
  }

  lemma StuckMeansImpossible(p: seq<Node>, placed: seq<Node>, rest: seq<Node>, inputs: set<Name>)
    requires multiset(p) == multiset(placed) + multiset(rest) && Stuck(placed, rest, inputs)
    ensures !Sorted(p, inputs)
  {
    hide Sorted;
    NotAllPlaced(p, placed, rest);
    assert p[..|p|] == p;
    if Sorted(p, inputs) {
      PrefixPlaced(p, placed, rest, inputs, |p|);
    }
  }

  lemma OneMore(a: multiset<Node>, b: multiset<Node>, c: multiset<Node>, d: multiset<Node>, n: Node)
    requires a + b == c + d
    ensures (a + multiset{n}) + b == c + (d + multiset{n})
    ensures b + (a + multiset{n}) == c + (d + multiset{n})
  {
    var one := multiset{n};
    forall m: Node ensures ((a + one) + b)[m] == (c + (d + one))[m] && (b + (a + one))[m] == (c + (d + one))[m] {
      assert (a + b)[m] == (c + d)[m];
    }
  }

  /** One sweep over the remaining nodes: those ready when visited are placed at once. */
  method Sweep(remaining: seq<Node>, placed0: seq<Node>, available0: set<Name>, ghost inputs: set<Name>)
    returns (placed: seq<Node>, available: set<Name>, rest: seq<Node>)
    requires Sorted(placed0, inputs) && available0 == inputs + AllProvided(placed0)
    ensures Sorted(placed, inputs) && available == inputs + AllProvided(placed)
    ensures multiset(placed) + multiset(rest) == multiset(placed0) + multiset(remaining)
    ensures |placed| + |rest| == |placed0| + |remaining|
    ensures |rest| < |remaining| || (rest == remaining && placed == placed0 && (rest != [] ==> Stuck(placed0, rest, inputs)))
    ensures Sorted(placed0 + remaining, inputs) ==> placed == placed0 + remaining && rest == []
  {
    hide Ready;
    hide Sorted;
    hide Provides;
    hide AllProvided;
    placed, available, rest := placed0, available0, [];
    for i := 0 to |remaining|
      invariant Sorted(placed, inputs) && available == inputs + AllProvided(placed)
      invariant multiset(placed) + multiset(rest) == multiset(placed0) + multiset(remaining[..i])
      invariant |placed| + |rest| == |placed0| + i && |rest| <= i
      invariant |rest| == i ==> rest == remaining[..i] && placed == placed0 && forall n <- rest :: !Ready(n, available0)
      invariant Sorted(placed0 + remaining, inputs) ==> placed == placed0 + remaining[..i] && rest == []
    {
      var n := remaining[i];
      assert remaining[..i + 1] == remaining[..i] + [n];
      assert multiset(remaining[..i + 1]) == multiset(remaining[..i]) + multiset{n};
      assert placed0 + remaining[..i + 1] == placed0 + remaining[..i] + [n];
      NextIsReady(placed0, remaining, i, inputs);
      if Ready(n, available) {
        SortedStep(placed, n, inputs);
        AllProvidedStep(placed, n);
        OneMore(multiset(placed), multiset(rest), multiset(placed0), multiset(remaining[..i]), n);
        placed := placed + [n];
        available := available + Provides(n);
      } else {
        OneMore(multiset(rest), multiset(placed), multiset(placed0), multiset(remaining[..i]), n);
        rest := rest + [n];
      }
    }
    assert remaining[..|remaining|] == remaining;
  }

  /** In an order that is sorted already every node is ready when its turn comes. */
  lemma NextIsReady(placed: seq<Node>, remaining: seq<Node>, i: nat, inputs: set<Name>)
    requires i < |remaining|
    ensures Sorted(placed + remaining, inputs)
            ==> Ready(remaining[i], inputs + AllProvided(placed + remaining[..i]))
  {
    hide Ready;
    var all := placed + remaining;
    assert all[|placed| + i] == remaining[i];
    assert all[..|placed| + i] == placed + remaining[..i];
  }

  /** No sorted list made of the graph's nodes has this one in it. */
  ghost predicate Unreachable(n: Node, nodes: seq<Node>, inputs: set<Name>) {
    forall p :: Sorted(p, inputs) && multiset(p) <= multiset(nodes) ==> n !in p
  }

  /** topologically_sorted_model: succeeds exactly when some order of the nodes is sorted,
      returns such an order of the very same nodes, and leaves a sorted graph as it is.
      On failure it names up to five nodes. Each waits for an input that none of the placed
      nodes provides, and can be reached by no order of any of the nodes. */
  method Sort(nodes: seq<Node>, inputs: set<Name>) returns (ok: bool, sorted: seq<Node>, unresolved: seq<Node>)
    ensures ok <==> exists p :: Permutes(p, nodes) && Sorted(p, inputs)
    ensures ok ==> Permutes(sorted, nodes) && Sorted(sorted, inputs)
    ensures Sorted(nodes, inputs) ==> ok && sorted == nodes
    ensures !ok ==> 0 < |unresolved| <= 5
    ensures !ok ==> forall n <- unresolved :: n in nodes && !Ready(n, inputs + AllProvided(sorted)) && Unreachable(n, nodes, inputs)
  {
    hide Sorted;
    hide Ready;
    var available, remaining := inputs, nodes;
    sorted, unresolved := [], [];
    assert Sorted([], inputs) by { EmptySorted(inputs); }
    assert [] + nodes == nodes;
    while remaining != []
      invariant Sorted(sorted, inputs) && available == inputs + AllProvided(sorted)
      invariant multiset(sorted) + multiset(remaining) == multiset(nodes)
      invariant Sorted(nodes, inputs) ==> sorted + remaining == nodes
      decreases |remaining|
    {
      ghost var before := sorted;
      var rest;
      sorted, available, rest := Sweep(remaining, sorted, available, inputs);
      if |rest| == |remaining| {
        unresolved := rest[..if |rest| < 5 then |rest| else 5];
        forall p | Permutes(p, nodes) ensures !Sorted(p, inputs) {
          StuckMeansImpossible(p, sorted, rest, inputs);
        }
        assert Permutes(nodes, nodes);
        forall n <- unresolved
          ensures n in nodes && !Ready(n, inputs + AllProvided(sorted)) && Unreachable(n, nodes, inputs)
        {
          NamedUnresolved(n, nodes, sorted, rest, inputs);
        }
        return false, sorted, unresolved;
      }
      remaining := rest;
    }
    assert Permutes(sorted, nodes);
    return true, sorted, [];
  }

  lemma EmptySorted(inputs: set<Name>)
    ensures Sorted([], inputs)
  {
  }

  lemma {:induction false} PlacedAreReady(placed: seq<Node>, inputs: set<Name>, n: Node)
    requires Sorted(placed, inputs) && n in placed
    ensures Ready(n, inputs + AllProvided(placed))
  {
    hide Ready;
    hide AllProvided;
    var i :| 0 <= i < |placed| && placed[i] == n;
    assert forall m :: m in placed[..i] ==> m in placed;
    ProvidedByMembers(placed[..i], placed);
    ReadyGrows(n, inputs + AllProvided(placed[..i]), inputs + AllProvided(placed));
  }

  lemma MemberCarries(p: seq<Node>, q: seq<Node>, n: Node)
    requires multiset(p) <= multiset(q) && n in p
    ensures n in q
  {
    assert n in multiset(p);
  }

  lemma NamedUnresolved(n: Node, nodes: seq<Node>, placed: seq<Node>, rest: seq<Node>, inputs: set<Name>)
    requires n in rest && Stuck(placed, rest, inputs) && Sorted(placed, inputs)
    requires multiset(placed) + multiset(rest) == multiset(nodes)
    ensures n in nodes && !Ready(n, inputs + AllProvided(placed)) && Unreachable(n, nodes, inputs)
  {
    hide Ready;
    hide Sorted;
    hide AllProvided;
    assert n in multiset(rest);
    assert n in multiset(nodes);
    if n in placed {
      PlacedAreReady(placed, inputs, n);
    }
    forall p | Sorted(p, inputs) && multiset(p) <= multiset(nodes) ensures n !in p {
      PrefixPlaced(p, placed, rest, inputs, |p|);
      assert p[..|p|] == p;
      if n in p {
        MemberCarries(p, placed, n);
        assert false;
      }
    }
  }

  /** Sorted, spelt out: every input of every node is the empty name, an input of the graph or
      an output of an earlier node. */
  lemma SortedExactly(nodes: seq<Node>, inputs: set<Name>)
    ensures Sorted(nodes, inputs) <==>
              forall i, name :: 0 <= i < |nodes| && name in nodes[i].inputs ==> Found(nodes, inputs, i, name)
  {
    forall i, name | 0 <= i < |nodes| && name in nodes[i].inputs
      ensures name == "" || name in inputs + AllProvided(nodes[..i]) <==> Found(nodes, inputs, i, name)
    {
      ProvidedExactly(nodes, i, name);
    }
    if forall i, name :: 0 <= i < |nodes| && name in nodes[i].inputs ==> Found(nodes, inputs, i, name) {
      forall i | 0 <= i < |nodes| ensures Ready(nodes[i], inputs + AllProvided(nodes[..i])) {
      }
    }
  }

  predicate Found(nodes: seq<Node>, inputs: set<Name>, i: int, name: Name)
    requires 0 <= i <= |nodes|
  {
    name == "" || name in inputs || exists j :: 0 <= j < i && name in nodes[j].outputs
  }

  lemma {:induction false} ProvidedExactly(nodes: seq<Node>, i: nat, name: Name)
    requires i <= |nodes|
    ensures name in AllProvided(nodes[..i]) <==> name != "" && exists j :: 0 <= j < i && name in nodes[j].outputs
    decreases i
  {
    if i > 0 {
      assert nodes[..i][..i - 1] == nodes[..i - 1];
      ProvidedExactly(nodes, i - 1, name);
    }
  }
}
