/** In which order a partition lists the nodes: it is the only one that the partitioner's rules allow,
    and in a plan whose nodes use earlier nodes every subset keeps the order of the plan. */
module PartitionOrder {
  import opened Basics
  import opened GraphInfo
  import opened Schedules

  // ----- Plans whose nodes use earlier nodes ---------------------------------------------------------

  /** A plan whose nodes use earlier nodes. */
  ghost predicate Plain(g: Graph) {
    g.InRange() && SingleProducer(g) && UsesEarlierNodes(g)
  }

  /** Whatever node `i` waits for comes before it in the plan, so that later nodes do not help it. */
  lemma LaterNodesDoNotHelp(g: Graph, done: set<int>, later: set<int>, i: int)
    requires Plain(g) && 0 <= i < |g.nodes| && Ready(g, done + later, i) && forall k :: k in later ==> i < k
    ensures Ready(g, done, i)
  {
    forall t | t in g.nodes[i].inputs && t != OPTIONAL_TENSOR && HasProducer(g, t) ensures ProducedIn(g, done, t) {
      assert g.Consumes(i, t);
      var k :| 0 <= k < i && g.Produces(k, t);
      var m :| m in done + later && 0 <= m < |g.nodes| && g.Produces(m, t);
      assert m == k;
    }
  }

  /** A node that joins after a later one might have joined before it. */
  lemma MightHaveJoined(g: Graph, types: seq<NodeType>, before: set<int>, nodes: seq<int>, q: nat, i: int)
    requires Plain(g) && |types| == |g.nodes| && q < |nodes| && MayCome(g, types, before, nodes, i)
    requires forall p :: q <= p < |nodes| ==> i < nodes[p]
    ensures MayCome(g, types, before, nodes[..q], i)
  {
    assert nodes == nodes[..q] + nodes[q..];
    assert before + Elements(nodes) == before + Elements(nodes[..q]) + Elements(nodes[q..]);
    forall k | k in Elements(nodes[q..]) ensures i < k {
      var p :| 0 <= p < |nodes[q..]| && nodes[q..][p] == k;
      assert nodes[q + p] == k;
    }
    LaterNodesDoNotHelp(g, before + Elements(nodes[..q]), Elements(nodes[q..]), i);
  }

  /** The first of `nodes`, which ascend, that lies above `i`. */
  lemma FirstAbove(nodes: seq<int>, i: int) returns (q: nat)
    requires Sorted(nodes) && nodes != [] && i < nodes[|nodes| - 1]
    ensures q < |nodes| && (forall p :: q <= p < |nodes| ==> i < nodes[p]) && (forall p :: 0 <= p < q ==> nodes[p] <= i)
  {
    q := 0;
    while nodes[q] <= i
      invariant 0 <= q < |nodes|
      invariant forall p :: 0 <= p < q ==> nodes[p] <= i
      decreases |nodes| - q
    {
      q := q + 1;
    }
  }

  lemma ComesUp(nodes: seq<int>, q: nat, i: int)
    requires q < |nodes| && 0 <= i < nodes[q] && (q > 0 ==> nodes[q - 1] < i)
    ensures ComesUpBefore(nodes[..q], i, nodes[q])
  {
  }

  lemma NextIsAbove(g: Graph, types: seq<NodeType>, before: set<int>, nodes: seq<int>, i: int)
    requires Plain(g) && |types| == |g.nodes| && InTurn(g, types, before, nodes) && Sorted(nodes) && nodes != []
    requires MayCome(g, types, before, nodes, i)
    ensures nodes[|nodes| - 1] < i
  {
    assert nodes[|nodes| - 1] in nodes;
    if i < nodes[|nodes| - 1] {
      var q := FirstAbove(nodes, i);
      assert q > 0 ==> nodes[q - 1] in nodes;
      ComesUp(nodes, q, i);
      InTurnBefore(g, types, before, nodes, q);
      MightHaveJoined(g, types, before, nodes, q, i);
    }
  }

  lemma {:induction false} InTurnAscends(g: Graph, types: seq<NodeType>, before: set<int>, nodes: seq<int>)
    requires Plain(g) && |types| == |g.nodes| && InTurn(g, types, before, nodes)
    ensures Sorted(nodes)
  {
    if nodes != [] {
      var front, last := nodes[..|nodes| - 1], nodes[|nodes| - 1];
      InTurnAscends(g, types, before, front);
      if front != [] {
        NextIsAbove(g, types, before, front, last);
      }
    }
  }

  /** Every subset lists its nodes in the order of the plan: one pass over the plan fills it. */
  lemma SubsetsAscend(g: Graph, types: seq<NodeType>, order: seq<seq<int>>)
    requires Plain(g) && |types| == |g.nodes| && AllInTurn(g, types, order)
    ensures forall e :: 0 <= e < |order| ==> Sorted(order[e])
  {
    forall e | 0 <= e < |order| ensures Sorted(order[e]) {
      EachInTurn(g, types, order, e);
      InTurnAscends(g, types, Done(order, e), order[e]);
    }
  }

  lemma FirstMayCome(g: Graph, types: seq<NodeType>, i: int)
    requires |types| == |g.nodes| && UsesEarlierNodes(g) && NextInTurn(g, types, {}, [], i)
    ensures i == 0
  {
    forall t | t in g.nodes[0].inputs && t != OPTIONAL_TENSOR ensures !HasProducer(g, t) {
      assert g.Consumes(0, t);
    }
    assert i > 0 ==> ComesUpBefore([], 0, i);
    assert MayCome(g, types, {}, [], 0);
  }

  /** Such a plan is partitioned from its first node on. */
  lemma StartsWithFirst(g: Graph, types: seq<NodeType>, order: seq<seq<int>>)
    requires |types| == |g.nodes| && UsesEarlierNodes(g) && AllInTurn(g, types, order)
    requires order != [] && order[0] != []
    ensures order[0][0] == 0
  {
    assert order[..0] == [] && Done(order, 0) == {} && order[0][..0] == [];
    EachInTurn(g, types, order, 0);
    InTurnBefore(g, types, {}, order[0], 0);
    FirstMayCome(g, types, order[0][0]);
  }

  // ----- Partitions in turn ----------------------------------------------------------------------------

  /** Nodes in the order of the plan, ready one after the other, that leave out only nodes of another
      type after the first one. */
  ghost predicate TakesType(g: Graph, types: seq<NodeType>, before: set<int>, nodes: seq<int>, t: NodeType)
    requires |types| == |g.nodes|
  {
    && Sorted(nodes) && OfType(types, nodes, t)
    && (forall p :: 0 <= p < |nodes| ==> nodes[p] !in before && Ready(g, before + Elements(nodes[..p]), nodes[p]))
    && (forall k :: 0 <= k < |g.nodes| && k !in before && k !in nodes ==>
          nodes != [] && nodes[0] < k && types[k] != t)
  }

  lemma NoneBetween(nodes: seq<int>, n: nat, k: int)
    requires Sorted(nodes) && n < |nodes| && (n > 0 ==> nodes[n - 1] < k) && k < nodes[n]
    ensures k !in nodes
  {
    forall p | 0 <= p < |nodes| ensures nodes[p] != k {
      assert if p < n then nodes[p] <= nodes[n - 1] else nodes[n] <= nodes[p];
    }
  }

  /** What is skipped is of another type or comes later. */
  lemma SkippedMayNotCome(g: Graph, types: seq<NodeType>, before: set<int>, nodes: seq<int>, t: NodeType, n: nat,
                          k: int)
    requires |types| == |g.nodes| && TakesType(g, types, before, nodes, t) && n < |nodes|
    requires ComesUpBefore(nodes[..n], k, nodes[n])
    ensures !MayCome(g, types, before, nodes[..n], k)
  {
    assert n > 0 ==> nodes[..n][0] == nodes[0] && nodes[..n][n - 1] == nodes[n - 1];
    NoneBetween(nodes, n, k);
  }

  lemma TakingNext(g: Graph, types: seq<NodeType>, before: set<int>, nodes: seq<int>, t: NodeType, n: nat)
    requires |types| == |g.nodes| && TakesType(g, types, before, nodes, t) && n < |nodes|
    ensures NextInTurn(g, types, before, nodes[..n], nodes[n])
  {
    assert nodes[n] !in nodes[..n];
    assert n > 0 ==> nodes[..n][0] == nodes[0];
    forall k | ComesUpBefore(nodes[..n], k, nodes[n]) ensures !MayCome(g, types, before, nodes[..n], k) {
      SkippedMayNotCome(g, types, before, nodes, t, n, k);
    }
  }

  lemma {:induction false} TakingTypeIsInTurn(g: Graph, types: seq<NodeType>, before: set<int>, nodes: seq<int>,
                                              t: NodeType, n: nat)
    requires |types| == |g.nodes| && TakesType(g, types, before, nodes, t) && n <= |nodes|
    ensures InTurn(g, types, before, nodes[..n])
  {
    if n > 0 {
      TakingTypeIsInTurn(g, types, before, nodes, t, n - 1);
      TakingNext(g, types, before, nodes, t, n - 1);
      assert nodes[..n][..n - 1] == nodes[..n - 1];
    }
  }

  /** Two such subsets after each other. */
  lemma BothInTurn(g: Graph, types: seq<NodeType>, a: seq<int>, s: NodeType, b: seq<int>, t: NodeType)
    requires |types| == |g.nodes| && TakesType(g, types, {}, a, s) && TakesType(g, types, Elements(a), b, t)
    ensures AllInTurn(g, types, [a, b])
  {
    TakingTypeIsInTurn(g, types, {}, a, s, |a|);
    TakingTypeIsInTurn(g, types, Elements(a), b, t, |b|);
    assert a[..|a|] == a && b[..|b|] == b;
    DoneOfTwo(a, b);
  }

  lemma DoneOfTwo(a: seq<int>, b: seq<int>)
    ensures Done([a, b], 0) == {} && Done([a, b], 1) == Elements(a)
  {
    var order := [a, b];
    assert order[..0] == [] && order[..1] == [a] && [a][..0] == [] && [] + a == a;
  }

  // ----- There is no other partition -------------------------------------------------------------------

  lemma OnlyOneIsNext(g: Graph, types: seq<NodeType>, before: set<int>, nodes: seq<int>, i: int, j: int)
    requires |types| == |g.nodes|
    requires NextInTurn(g, types, before, nodes, i) && NextInTurn(g, types, before, nodes, j)
    ensures i == j
  {
    assert nodes != [] ==> nodes[|nodes| - 1] in nodes;
    assert !ComesUpBefore(nodes, i, j) && !ComesUpBefore(nodes, j, i);
  }

  /** No node may join `nodes` any more. */
  ghost predicate Full(g: Graph, types: seq<NodeType>, before: set<int>, nodes: seq<int>)
    requires |types| == |g.nodes|
  {
    forall i :: !MayCome(g, types, before, nodes, i)
  }

  lemma OneMoreAlike<T>(a: seq<T>, b: seq<T>, n: nat)
    requires n < |a| && n < |b| && a[..n] == b[..n] && a[n] == b[n]
    ensures a[..n + 1] == b[..n + 1]
  {
  }

  /** Two full subsets after the same nodes agree as far as the shorter one goes, and neither can stop first. */
  lemma {:induction false} SameSoFar(g: Graph, types: seq<NodeType>, before: set<int>, a: seq<int>, b: seq<int>, n: nat)
    requires |types| == |g.nodes| && InTurn(g, types, before, a) && InTurn(g, types, before, b)
    requires Full(g, types, before, b) && n <= |a|
    ensures n <= |b| && a[..n] == b[..n]
  {
    if n > 0 {
      SameSoFar(g, types, before, a, b, n - 1);
      assert b[..|b|] == b;
      InTurnBefore(g, types, before, a, n - 1);
      if n <= |b| {
        InTurnBefore(g, types, before, b, n - 1);
        OnlyOneIsNext(g, types, before, a[..n - 1], a[n - 1], b[n - 1]);
        OneMoreAlike(a, b, n - 1);
      }
    }
  }

  lemma SameSubset(g: Graph, types: seq<NodeType>, before: set<int>, a: seq<int>, b: seq<int>)
    requires |types| == |g.nodes| && InTurn(g, types, before, a) && InTurn(g, types, before, b)
    requires Full(g, types, before, a) && Full(g, types, before, b)
    ensures a == b
  {
    SameSoFar(g, types, before, a, b, |a|);
    SameSoFar(g, types, before, b, a, |b|);
    assert a[..|a|] == a && b[..|b|] == b;
  }

  lemma GreedyIsFull(g: Graph, types: seq<NodeType>, order: seq<seq<int>>, kinds: seq<NodeType>, e: nat)
    requires Greedy(g, types, order, kinds) && e < |order|
    ensures Full(g, types, Done(order, e), order[e])
  {
    DoneNext(order, e);
    assert GreedyAt(g, types, order, kinds, e);
    assert types[order[e][0]] == kinds[e];
  }

  /** A partition does not end while another one goes on. */
  lemma NoneIsShorter(g: Graph, a: seq<seq<int>>, b: seq<seq<int>>, e: nat)
    requires Schedule(g, Flatten(a)) && e < |a| && a[e] != [] && e <= |b| && a[..e] == b[..e]
    requires Covers(g, Elements(Flatten(b)))
    ensures e < |b|
  {
    FirstIsReady(g, a, e);
    assert b[..|b|] == b;
  }

  lemma SameNext(g: Graph, types: seq<NodeType>, a: seq<seq<int>>, ka: seq<NodeType>,
                 b: seq<seq<int>>, kb: seq<NodeType>, e: nat)
    requires Greedy(g, types, a, ka) && Greedy(g, types, b, kb) && e < |a| && e < |b| && a[..e] == b[..e]
    requires InTurn(g, types, Done(a, e), a[e]) && InTurn(g, types, Done(b, e), b[e])
    ensures a[e] == b[e] && ka[e] == kb[e]
  {
    GreedyIsFull(g, types, a, ka, e);
    GreedyIsFull(g, types, b, kb, e);
    SameSubset(g, types, Done(a, e), a[e], b[e]);
    assert GreedyAt(g, types, a, ka, e) && GreedyAt(g, types, b, kb, e);
    assert ka[e] == types[a[e][0]] == kb[e];
  }

  lemma {:induction false} SameSubsets(g: Graph, types: seq<NodeType>, a: seq<seq<int>>, ka: seq<NodeType>,
                                       b: seq<seq<int>>, kb: seq<NodeType>, n: nat)
    requires Partitioned(g, types, a, ka) && Partitioned(g, types, b, kb) && n <= |a|
    ensures n <= |b| && a[..n] == b[..n] && ka[..n] == kb[..n]
  {
    if n > 0 {
      SameSubsets(g, types, a, ka, b, kb, n - 1);
      assert GreedyAt(g, types, a, ka, n - 1);
      NoneIsShorter(g, a, b, n - 1);
      EachInTurn(g, types, a, n - 1);
      EachInTurn(g, types, b, n - 1);
      SameNext(g, types, a, ka, b, kb, n - 1);
      OneMoreAlike(a, b, n - 1);
      OneMoreAlike(ka, kb, n - 1);
    }
  }

  /** What the partitioner's rules say leaves no choice, not even in which order a subset lists its nodes. */
  lemma PartitionIsDetermined(g: Graph, types: seq<NodeType>, a: seq<seq<int>>, ka: seq<NodeType>,
                              b: seq<seq<int>>, kb: seq<NodeType>)
    requires Partitioned(g, types, a, ka) && Partitioned(g, types, b, kb)
    ensures a == b && ka == kb
  {
    SameSubsets(g, types, a, ka, b, kb, |a|);
    SameSubsets(g, types, b, kb, a, ka, |b|);
    assert a[..|a|] == a && b[..|b|] == b && ka[..|ka|] == ka && kb[..|kb|] == kb;
  }
}
