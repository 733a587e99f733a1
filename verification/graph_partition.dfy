/** Splitting an execution plan into subsets of nodes of one type each, epoch by epoch. */
module GraphPartition {
  import opened Basics
  import opened GraphInfo
  import opened Schedules
  import opened PartitionOrder

  const NOT_READY: int := -1
  const ALWAYS_READY: int := -2

  datatype NodeSubset = NodeSubset(kind: NodeType, nodes: seq<nat>, inputTensors: seq<int>, outputTensors: seq<int>)

  /** The partitioner's tables; `order[e]` lists the plan positions of subset `e`'s nodes. */
  datatype Progress = Progress(
    subsets: seq<NodeSubset>,
    tensorEpochs: seq<int>,
    nodeEpochs: seq<int>,
    order: seq<seq<int>>)

  ghost predicate GraphFits(g: Graph, nodeType: seq<NodeType>) {
    && g.InRange() && |g.nodeIndex| == |g.nodes| && |nodeType| == g.totalNodes
    && (forall i :: 0 <= i < |g.nodes| ==> g.nodeIndex[i] < g.totalNodes)
    && (forall n :: 0 <= n < |nodeType| ==> nodeType[n] != Unexplored)
  }

  function TypesOf(g: Graph, nodeType: seq<NodeType>): (types: seq<NodeType>)
    requires GraphFits(g, nodeType)
    ensures |types| == |g.nodes| && forall i :: 0 <= i < |types| ==> types[i] == nodeType[g.nodeIndex[i]]
  {
    seq(|g.nodes|, i requires 0 <= i < |g.nodes| => nodeType[g.nodeIndex[i]])
  }

  // ----- What the tables mean ---------------------------------------------------------------------

  ghost predicate NodesTracked(g: Graph, s: Progress) {
    && |s.nodeEpochs| == |g.nodes|
    && (forall i :: 0 <= i < |g.nodes| && s.nodeEpochs[i] != NOT_READY ==>
          0 <= s.nodeEpochs[i] < |s.order| && i in s.order[s.nodeEpochs[i]])
    && (forall e, p :: 0 <= e < |s.order| && 0 <= p < |s.order[e]| ==>
          0 <= s.order[e][p] < |g.nodes| && s.nodeEpochs[s.order[e][p]] == e)
  }

  ghost predicate ProducerDone(g: Graph, s: Progress, t: int, e: int)
    requires |s.nodeEpochs| == |g.nodes|
  {
    e != NOT_READY && exists k :: 0 <= k < |g.nodes| && g.Produces(k, t) && s.nodeEpochs[k] == e
  }

  ghost predicate TensorTracked(g: Graph, s: Progress, t: int)
    requires |s.nodeEpochs| == |g.nodes| && 0 <= t < |s.tensorEpochs|
  {
    if !HasProducer(g, t) then s.tensorEpochs[t] == ALWAYS_READY
    else if s.tensorEpochs[t] == NOT_READY then
      forall k :: 0 <= k < |g.nodes| && g.Produces(k, t) ==> s.nodeEpochs[k] == NOT_READY
    else s.tensorEpochs[t] >= 0 && ProducerDone(g, s, t, s.tensorEpochs[t])
  }

  ghost predicate SubsetTracked(g: Graph, types: seq<NodeType>, subset: NodeSubset, nodes: seq<int>)
    requires |types| == |g.nodes| == |g.nodeIndex|
  {
    && OfType(types, nodes, subset.kind)
    && (subset.kind == Unexplored <==> nodes == [])
    && |subset.nodes| == |nodes|
    && (forall p :: 0 <= p < |nodes| ==> subset.nodes[p] == g.nodeIndex[nodes[p]])
  }

  ghost predicate ReadBy(g: Graph, nodes: seq<int>, t: int) {
    exists p :: 0 <= p < |nodes| && 0 <= nodes[p] < |g.nodes| && g.Consumes(nodes[p], t)
  }

  /** Some node outside epoch `e` that has an epoch consumes `t`. */
  ghost predicate ReadElsewhere(g: Graph, s: Progress, e: int, t: int)
    requires |s.nodeEpochs| == |g.nodes|
  {
    exists k :: 0 <= k < |g.nodes| && s.nodeEpochs[k] != NOT_READY && s.nodeEpochs[k] != e && g.Consumes(k, t)
  }

  ghost predicate BoundaryTracked(g: Graph, s: Progress, e: int, t: int)
    requires |s.nodeEpochs| == |g.nodes| && 0 <= e < |s.subsets| == |s.order|
  {
    && (t in s.subsets[e].inputTensors <==>
          0 <= t < |s.tensorEpochs| && ReadBy(g, s.order[e], t) && s.tensorEpochs[t] != e)
    && (t in s.subsets[e].outputTensors <==>
          0 <= t < |s.tensorEpochs| && s.tensorEpochs[t] == e && ReadElsewhere(g, s, e, t))
  }

  /** Everything the tables say about the epochs so far; the boundaries are exact when a tensor has
      one producer. */
  ghost predicate Tracked(g: Graph, types: seq<NodeType>, s: Progress) {
    && |types| == |g.nodes| == |g.nodeIndex| && |s.tensorEpochs| == |g.tensors| && |s.subsets| == |s.order|
    && Schedule(g, Flatten(s.order))
    && NodesTracked(g, s)
    && (forall t :: 0 <= t < |g.tensors| ==> TensorTracked(g, s, t))
    && (forall e :: 0 <= e < |s.order| ==> SubsetTracked(g, types, s.subsets[e], s.order[e]))
    && (SingleProducer(g) ==> forall e, t :: 0 <= e < |s.order| ==> BoundaryTracked(g, s, e, t))
  }

  lemma {:induction false} FlattenMembers(order: seq<seq<int>>, i: int)
    ensures i in Flatten(order) <==> exists e :: 0 <= e < |order| && i in order[e]
  {
    if order != [] {
      var n := |order| - 1;
      FlattenMembers(order[..n], i);
      if e :| 0 <= e < |order| && i in order[e] {
        if e < n {
          assert i in order[..n][e];
        }
      }
    }
  }

  /** A node has an epoch exactly when it is scheduled. */
  lemma EpochMeansScheduled(g: Graph, s: Progress, i: int)
    requires NodesTracked(g, s) && 0 <= i < |g.nodes|
    ensures i in Flatten(s.order) <==> s.nodeEpochs[i] != NOT_READY
  {
    FlattenMembers(s.order, i);
  }

  predicate TensorReady(s: Progress, t: int) {
    t == OPTIONAL_TENSOR || (0 <= t < |s.tensorEpochs| && s.tensorEpochs[t] != NOT_READY)
  }

  /** The readiness test on tensor epochs is readiness. */
  lemma ReadinessTest(g: Graph, types: seq<NodeType>, s: Progress, i: int)
    requires g.InRange() && Tracked(g, types, s) && 0 <= i < |g.nodes|
    ensures (forall t :: t in g.nodes[i].inputs ==> TensorReady(s, t)) <==> Ready(g, Elements(Flatten(s.order)), i)
  {
    assert g.NodeInRange(g.nodes[i]);
    forall t | t in g.nodes[i].inputs && t != OPTIONAL_TENSOR
      ensures TensorReady(s, t) <==> !HasProducer(g, t) || ProducedIn(g, Elements(Flatten(s.order)), t)
    {
      assert TensorTracked(g, s, t);
      if HasProducer(g, t) && s.tensorEpochs[t] != NOT_READY {
        var k :| 0 <= k < |g.nodes| && g.Produces(k, t) && s.nodeEpochs[k] == s.tensorEpochs[t];
        EpochMeansScheduled(g, s, k);
      }
      if ProducedIn(g, Elements(Flatten(s.order)), t) {
        var k :| k in Elements(Flatten(s.order)) && 0 <= k < |g.nodes| && g.Produces(k, t);
        EpochMeansScheduled(g, s, k);
      }
    }
  }

  /** Whatever a scheduled node consumes is ready. */
  lemma ConsumedIsReady(g: Graph, types: seq<NodeType>, s: Progress, i: int, t: int)
    requires g.InRange() && Tracked(g, types, s) && 0 <= i < |g.nodes| && s.nodeEpochs[i] != NOT_READY
    requires g.Consumes(i, t) && t != OPTIONAL_TENSOR
    ensures 0 <= t < |g.tensors| && s.tensorEpochs[t] != NOT_READY
  {
    assert g.NodeInRange(g.nodes[i]);
    EpochMeansScheduled(g, s, i);
    var flat := Flatten(s.order);
    var p :| 0 <= p < |flat| && flat[p] == i;
    assert ReadyAt(g, flat, p);
    ReadyGrows(g, Elements(flat[..p]), Elements(flat), i);
    ReadinessTest(g, types, s, i);
    assert TensorReady(s, t);
  }

  // ----- Assigning one node -------------------------------------------------------------------------

  /** `r` is `s` after node `i` joined the last subset. */
  ghost predicate Joins(g: Graph, types: seq<NodeType>, s: Progress, i: int, r: Progress)
    requires 0 <= i < |g.nodes| == |types| == |g.nodeIndex|
  {
    var c := |s.order| - 1;
    && c >= 0 && |s.subsets| == |r.subsets| == |s.order| && |s.nodeEpochs| == |g.nodes|
    && r.order == s.order[c := s.order[c] + [i]]
    && r.nodeEpochs == s.nodeEpochs[i := c]
    && |r.tensorEpochs| == |s.tensorEpochs|
    && (forall t :: 0 <= t < |s.tensorEpochs| ==>
          r.tensorEpochs[t] == if g.Produces(i, t) then c else s.tensorEpochs[t])
    && r.subsets[c].kind == types[i] && r.subsets[c].nodes == s.subsets[c].nodes + [g.nodeIndex[i]]
    && (forall e :: 0 <= e < c ==> r.subsets[e].kind == s.subsets[e].kind && r.subsets[e].nodes == s.subsets[e].nodes)
    && (forall e :: 0 <= e < |s.order| ==>
          Recorded(g.nodes[i].inputs, r.tensorEpochs, c, s.subsets[e], r.subsets[e], e))
  }

  /** What scanning a node's inputs adds to the boundaries of subset `e`. */
  ghost predicate Recorded(inputs: seq<int>, tensorEpochs: seq<int>, c: int, before: NodeSubset, after: NodeSubset,
                           e: int) {
    && (forall t :: t in after.inputTensors <==>
          t in before.inputTensors || (e == c && t in inputs && 0 <= t < |tensorEpochs| && tensorEpochs[t] != c))
    && (forall t :: t in after.outputTensors <==>
          t in before.outputTensors || (e != c && t in inputs && 0 <= t < |tensorEpochs| && tensorEpochs[t] == e))
  }

  /** The node may join: it is new, ready, and of the subset's type. */
  ghost predicate MayJoin(g: Graph, types: seq<NodeType>, s: Progress, i: int)
    requires 0 <= i < |g.nodes| == |types| && |s.nodeEpochs| == |g.nodes| && |s.subsets| > 0
  {
    && s.nodeEpochs[i] == NOT_READY && Ready(g, Elements(Flatten(s.order)), i)
    && (s.subsets[|s.subsets| - 1].kind == Unexplored || s.subsets[|s.subsets| - 1].kind == types[i])
  }

  lemma JoinExtendsSchedule(g: Graph, types: seq<NodeType>, s: Progress, i: int, r: Progress)
    requires Tracked(g, types, s) && 0 <= i < |g.nodes| && |s.order| > 0 && MayJoin(g, types, s, i)
        && Joins(g, types, s, i, r)
    ensures Schedule(g, Flatten(r.order)) && Flatten(r.order) == Flatten(s.order) + [i]
  {
    var c := |s.order| - 1;
    assert r.order[..c] == s.order[..c];
    assert Flatten(r.order) == Flatten(s.order) + [i];
    EpochMeansScheduled(g, s, i);
    ScheduleExtends(g, Flatten(s.order), i);
  }

  lemma JoinKeepsNodes(g: Graph, types: seq<NodeType>, s: Progress, i: int, r: Progress)
    requires Tracked(g, types, s) && 0 <= i < |g.nodes| && |s.order| > 0 && MayJoin(g, types, s, i)
        && Joins(g, types, s, i, r)
    ensures NodesTracked(g, r)
  {
    var c := |s.order| - 1;
    forall k | 0 <= k < |g.nodes| && r.nodeEpochs[k] != NOT_READY
      ensures 0 <= r.nodeEpochs[k] < |r.order| && k in r.order[r.nodeEpochs[k]]
    {
      if k == i {
        assert r.order[c][|s.order[c]|] == i;
      } else if s.nodeEpochs[k] == c {
        var p :| 0 <= p < |s.order[c]| && s.order[c][p] == k;
        assert r.order[c][p] == k;
      }
    }
    forall e, p | 0 <= e < |r.order| && 0 <= p < |r.order[e]|
      ensures 0 <= r.order[e][p] < |g.nodes| && r.nodeEpochs[r.order[e][p]] == e
    {
      if e != c || p < |s.order[c]| {
        assert r.order[e][p] == s.order[e][p];
      }
    }
  }

  lemma JoinKeepsTensor(g: Graph, types: seq<NodeType>, s: Progress, i: int, r: Progress, t: int)
    requires Tracked(g, types, s) && 0 <= i < |g.nodes| && |s.order| > 0 && MayJoin(g, types, s, i)
        && Joins(g, types, s, i, r)
    requires 0 <= t < |g.tensors|
    ensures TensorTracked(g, r, t)
  {
    assert TensorTracked(g, s, t);
    if g.Produces(i, t) {
      assert HasProducer(g, t);
      assert r.nodeEpochs[i] == r.tensorEpochs[t];
    } else if HasProducer(g, t) && s.tensorEpochs[t] != NOT_READY {
      var k :| 0 <= k < |g.nodes| && g.Produces(k, t) && s.nodeEpochs[k] == s.tensorEpochs[t];
      assert k != i && r.nodeEpochs[k] == r.tensorEpochs[t];
    }
  }

  lemma JoinKeepsSubsets(g: Graph, types: seq<NodeType>, s: Progress, i: int, r: Progress)
    requires Tracked(g, types, s) && 0 <= i < |g.nodes| && |s.order| > 0 && MayJoin(g, types, s, i)
        && Joins(g, types, s, i, r)
    requires types[i] != Unexplored
    ensures forall e :: 0 <= e < |r.order| ==> SubsetTracked(g, types, r.subsets[e], r.order[e])
  {
    forall e | 0 <= e < |r.order| ensures SubsetTracked(g, types, r.subsets[e], r.order[e]) {
      assert SubsetTracked(g, types, s.subsets[e], s.order[e]);
    }
  }

  lemma JoinKeepsBoundary(g: Graph, types: seq<NodeType>, s: Progress, i: int, r: Progress, e: int, t: int)
    requires g.InRange() && SingleProducer(g)
    requires Tracked(g, types, s) && 0 <= i < |g.nodes| && |s.order| > 0 && MayJoin(g, types, s, i)
        && Joins(g, types, s, i, r)
    requires 0 <= e < |s.order|
    ensures BoundaryTracked(g, r, e, t)
  {
    var c := |s.order| - 1;
    assert BoundaryTracked(g, s, e, t);
    assert Recorded(g.nodes[i].inputs, r.tensorEpochs, c, s.subsets[e], r.subsets[e], e);
    if 0 <= t < |g.tensors| {
      ReadinessTest(g, types, s, i);
      assert g.Consumes(i, t) ==> TensorReady(s, t);
      assert TensorTracked(g, s, t);
      if g.Produces(i, t) {
        assert HasProducer(g, t) && s.tensorEpochs[t] == NOT_READY;
        assert forall k :: 0 <= k < |g.nodes| && s.nodeEpochs[k] != NOT_READY ==> !g.Consumes(k, t) by {
          forall k | 0 <= k < |g.nodes| && s.nodeEpochs[k] != NOT_READY && g.Consumes(k, t) ensures false {
            ConsumedIsReady(g, types, s, k, t);
          }
        }
      }
      JoinReads(g, s, i, r, e, t);
      JoinReadsElsewhere(g, s, i, r, e, t);
    }
  }

  lemma JoinReads(g: Graph, s: Progress, i: int, r: Progress, e: int, t: int)
    requires NodesTracked(g, s) && 0 <= i < |g.nodes| && 0 <= e < |s.order|
    requires s.nodeEpochs[i] == NOT_READY
    requires var c := |s.order| - 1; r.order == s.order[c := s.order[c] + [i]] && r.nodeEpochs == s.nodeEpochs[i := c]
    ensures ReadBy(g, r.order[e], t) <==> ReadBy(g, s.order[e], t) || (e == |s.order| - 1 && g.Consumes(i, t))
    ensures ReadBy(g, s.order[e], t) ==>
              exists k :: 0 <= k < |g.nodes| && s.nodeEpochs[k] != NOT_READY && g.Consumes(k, t)
  {
    var c := |s.order| - 1;
    if ReadBy(g, s.order[e], t) {
      var p :| 0 <= p < |s.order[e]| && 0 <= s.order[e][p] < |g.nodes| && g.Consumes(s.order[e][p], t);
      assert r.order[e][p] == s.order[e][p] && s.nodeEpochs[s.order[e][p]] == e;
    }
    if e == c && g.Consumes(i, t) {
      assert r.order[c][|s.order[c]|] == i;
    }
  }

  lemma JoinReadsElsewhere(g: Graph, s: Progress, i: int, r: Progress, e: int, t: int)
    requires |s.nodeEpochs| == |g.nodes| && 0 <= i < |g.nodes| && 0 <= e < |s.order|
    requires s.nodeEpochs[i] == NOT_READY && r.nodeEpochs == s.nodeEpochs[i := |s.order| - 1]
    ensures ReadElsewhere(g, r, e, t) <==> ReadElsewhere(g, s, e, t) || (e != |s.order| - 1 && g.Consumes(i, t))
  {
    if ReadElsewhere(g, s, e, t) {
      var k :| 0 <= k < |g.nodes| && s.nodeEpochs[k] != NOT_READY && s.nodeEpochs[k] != e && g.Consumes(k, t);
      assert r.nodeEpochs[k] == s.nodeEpochs[k];
    }
    if e != |s.order| - 1 && g.Consumes(i, t) {
      assert r.nodeEpochs[i] == |s.order| - 1;
    }
  }

  lemma JoinKeepsTracked(g: Graph, types: seq<NodeType>, s: Progress, i: int, r: Progress)
    requires g.InRange()
    requires Tracked(g, types, s) && 0 <= i < |g.nodes| && |s.order| > 0 && MayJoin(g, types, s, i)
        && Joins(g, types, s, i, r)
    requires types[i] != Unexplored
    ensures Tracked(g, types, r)
  {
    JoinExtendsSchedule(g, types, s, i, r);
    JoinKeepsNodes(g, types, s, i, r);
    JoinKeepsSubsets(g, types, s, i, r);
    forall t | 0 <= t < |g.tensors| ensures TensorTracked(g, r, t) {
      JoinKeepsTensor(g, types, s, i, r, t);
    }
    if SingleProducer(g) {
      forall e, t | 0 <= e < |r.order| ensures BoundaryTracked(g, r, e, t) {
        JoinKeepsBoundary(g, types, s, i, r, e, t);
      }
    }
  }

  // ----- Opening and closing an epoch ---------------------------------------------------------------

  function Opened(s: Progress): Progress {
    s.(subsets := s.subsets + [NodeSubset(Unexplored, [], [], [])], order := s.order + [[]])
  }

  lemma OpenKeepsTracked(g: Graph, types: seq<NodeType>, s: Progress)
    requires Tracked(g, types, s)
    ensures Tracked(g, types, Opened(s)) && Flatten(Opened(s).order) == Flatten(s.order)
  {
    var r, n := Opened(s), |s.order|;
    assert r.order[..n] == s.order;
    assert Flatten(r.order) == Flatten(s.order) + [] == Flatten(s.order);
    forall e | 0 <= e < |r.order| ensures SubsetTracked(g, types, r.subsets[e], r.order[e]) {
      if e < n {
        assert SubsetTracked(g, types, s.subsets[e], s.order[e]);
      }
    }
    forall t | 0 <= t < |g.tensors| ensures TensorTracked(g, r, t) && s.tensorEpochs[t] < n {
      assert TensorTracked(g, s, t);
    }
    if SingleProducer(g) {
      forall e, t | 0 <= e < |r.order| ensures BoundaryTracked(g, r, e, t) {
        if e < n {
          assert BoundaryTracked(g, s, e, t);
        }
      }
    }
  }

  lemma OpenKeepsTurns(g: Graph, types: seq<NodeType>, order: seq<seq<int>>)
    requires |types| == |g.nodes|
    ensures AllInTurn(g, types, order) ==> BetweenPasses(g, types, order + [[]])
  {
    assert (order + [[]])[..|order|] == order;
  }

  lemma CloseKeepsTracked(g: Graph, types: seq<NodeType>, s: Progress)
    requires Tracked(g, types, s) && |s.order| > 0 && s.order[|s.order| - 1] == []
    ensures var n := |s.order| - 1;
            && Tracked(g, types, s.(subsets := s.subsets[..n], order := s.order[..n]))
            && Flatten(s.order[..n]) == Flatten(s.order)
  {
    var n := |s.order| - 1;
    var r := s.(subsets := s.subsets[..n], order := s.order[..n]);
    assert Flatten(s.order) == Flatten(r.order) + [] == Flatten(r.order);
    assert forall i :: 0 <= i < |g.nodes| ==> s.nodeEpochs[i] != n;
    forall e | 0 <= e < |r.order| ensures SubsetTracked(g, types, r.subsets[e], r.order[e]) {
      assert SubsetTracked(g, types, s.subsets[e], s.order[e]);
    }
    forall t | 0 <= t < |g.tensors| ensures TensorTracked(g, r, t) {
      assert TensorTracked(g, s, t);
    }
    if SingleProducer(g) {
      forall e, t | 0 <= e < |r.order| ensures BoundaryTracked(g, r, e, t) {
        assert BoundaryTracked(g, s, e, t);
      }
    }
  }

  lemma {:induction false} DistinctFit(s: seq<int>, n: nat)
    requires forall p :: 0 <= p < |s| ==> 0 <= s[p] < n
    requires forall p, q :: 0 <= p < q < |s| ==> s[p] != s[q]
    ensures |s| <= n
    decreases n
  {
    if s != [] {
      assert 0 <= s[0] < n;
      if p :| 0 <= p < |s| && s[p] == n - 1 {
        DistinctFit(s[..p] + s[p + 1..], n - 1);
      } else {
        DistinctFit(s, n - 1);
      }
    }
  }

  /** `items`, sorted and without repeats. */
  ghost predicate SortedSetOf(r: seq<int>, items: seq<int>) {
    Sorted(r) && forall t :: t in r <==> t in items
  }

  /** Stands for sorting, removing repeats and erasing the rest with the library. */
  method Uniquefy(items: seq<int>) returns (r: seq<int>)
    ensures SortedSetOf(r, items)
  {
    r := [];
    for n := 0 to |items|
      invariant SortedSetOf(r, items[..n])
    {
      assert items[..n + 1] == items[..n] + [items[n]];
      r := Including(r, items[n]);
    }
    assert items[..|items|] == items;
  }

  method Including(s: seq<int>, x: int) returns (r: seq<int>)
    requires Sorted(s)
    ensures SortedSetOf(r, s + [x])
  {
    var k := 0;
    while k < |s| && s[k] < x
      invariant 0 <= k <= |s|
      invariant forall i :: 0 <= i < k ==> s[i] < x
    {
      k := k + 1;
    }
    if k < |s| && s[k] == x {
      return s;
    }
    r := s[..k] + [x] + s[k..];
    forall t ensures t in r <==> t in s + [x] {
      assert s == s[..k] + s[k..];
    }
  }

  /** The scan of a node's inputs that records subset boundaries. */
  method RecordInputs(subsets: seq<NodeSubset>, tensorEpochs: seq<int>, inputs: seq<int>, c: nat)
    returns (r: seq<NodeSubset>)
    requires c < |subsets|
    requires forall t :: t in inputs ==>
               t == OPTIONAL_TENSOR || (0 <= t < |tensorEpochs| && tensorEpochs[t] < |subsets|)
    ensures |r| == |subsets|
    ensures forall e :: 0 <= e < |r| ==> r[e].kind == subsets[e].kind && r[e].nodes == subsets[e].nodes
    ensures forall e :: 0 <= e < |r| ==> Recorded(inputs, tensorEpochs, c, subsets[e], r[e], e)
  {
    r := subsets;
    for j := 0 to |inputs|
      invariant |r| == |subsets|
      invariant forall e :: 0 <= e < |r| ==> r[e].kind == subsets[e].kind && r[e].nodes == subsets[e].nodes
      invariant forall e :: 0 <= e < |r| ==> Recorded(inputs[..j], tensorEpochs, c, subsets[e], r[e], e)
    {
      assert inputs[..j + 1] == inputs[..j] + [inputs[j]];
      assert inputs[j] in inputs;
      ghost var before := r;
      var t := inputs[j];
      if t != OPTIONAL_TENSOR && tensorEpochs[t] != c {
        var epoch := tensorEpochs[t];
        r := r[c := r[c].(inputTensors := r[c].inputTensors + [t])];
        if epoch >= 0 {
          r := r[epoch := r[epoch].(outputTensors := r[epoch].outputTensors + [t])];
        }
      }
      forall e | 0 <= e < |r| ensures Recorded(inputs[..j + 1], tensorEpochs, c, subsets[e], r[e], e) {
        assert Recorded(inputs[..j], tensorEpochs, c, subsets[e], before[e], e);
      }
    }
    assert inputs[..|inputs|] == inputs;
  }

  /** Adding the node to the last subset and recording its inputs makes it join. */
  lemma RecordingJoins(g: Graph, types: seq<NodeType>, s: Progress, i: nat, tensorEpochs: seq<int>,
                       current: NodeSubset, recorded: seq<NodeSubset>)
    requires i < |g.nodes| == |types| == |g.nodeIndex| == |s.nodeEpochs| && 0 < |s.order| == |s.subsets| == |recorded|
    requires |tensorEpochs| == |s.tensorEpochs|
    requires forall t :: 0 <= t < |tensorEpochs| ==>
               tensorEpochs[t] == if t in g.nodes[i].outputs then |s.order| - 1 else s.tensorEpochs[t]
    requires current == s.subsets[|s.order| - 1].(kind := types[i],
                                                  nodes := s.subsets[|s.order| - 1].nodes + [g.nodeIndex[i]])
    requires var c := |s.order| - 1;
             forall e :: 0 <= e < |recorded| ==>
               && recorded[e].kind == s.subsets[c := current][e].kind
               && recorded[e].nodes == s.subsets[c := current][e].nodes
               && Recorded(g.nodes[i].inputs, tensorEpochs, c, s.subsets[c := current][e], recorded[e], e)
    ensures var c := |s.order| - 1;
            Joins(g, types, s, i, Progress(recorded, tensorEpochs, s.nodeEpochs[i := c],
                                           s.order[c := s.order[c] + [i]]))
  {
    var c := |s.order| - 1;
    forall e | 0 <= e < |s.order|
      ensures Recorded(g.nodes[i].inputs, tensorEpochs, c, s.subsets[e], recorded[e], e)
    {
      assert Recorded(g.nodes[i].inputs, tensorEpochs, c, s.subsets[c := current][e], recorded[e], e);
    }
  }

  class GraphPartitioner {
    const g: Graph
    const nodeType: seq<NodeType>
    var subsets: seq<NodeSubset>
    var tensorEpochs: seq<int>
    var nodeEpochs: seq<int>
    // The plan positions of every subset's nodes.
    ghost var order: seq<seq<int>>

    ghost function State(): Progress
      reads this
    {
      Progress(subsets, tensorEpochs, nodeEpochs, order)
    }

    ghost function Types(): seq<NodeType>
      requires GraphFits(g, nodeType)
    {
      TypesOf(g, nodeType)
    }

    ghost predicate Valid()
      reads this
    {
      GraphFits(g, nodeType) && Tracked(g, Types(), State())
    }

    /** Node types: the listed original indices are to be partitioned, all others are not. */
    constructor (g: Graph, nodesToPartition: seq<int>)
      requires g.InRange() && |g.nodeIndex| == |g.nodes|
      requires forall i :: 0 <= i < |g.nodes| ==> g.nodeIndex[i] < g.totalNodes
      requires forall n :: n in nodesToPartition ==> 0 <= n < g.totalNodes
      ensures this.g == g && GraphFits(g, nodeType)
      ensures forall n :: 0 <= n < |nodeType| ==>
          nodeType[n] == if n in nodesToPartition then NodeType.Partition else NonPartition
    {
      this.g := g;
      var types := seq(g.totalNodes, _ => NonPartition);
      for j := 0 to |nodesToPartition|
        invariant |types| == g.totalNodes
        invariant forall n :: 0 <= n < |types| ==>
                    types[n] == if n in nodesToPartition[..j] then NodeType.Partition else NonPartition
      {
        assert nodesToPartition[j] in nodesToPartition;
        types := types[nodesToPartition[j] := NodeType.Partition];
      }
      nodeType := types;
      subsets, tensorEpochs, nodeEpochs, order := [], [], [], [];
    }

    /** Are all given inputs of node `i` assigned to an epoch? */
    method InputsReady(i: nat) returns (ready: bool)
      requires Valid() && i < |g.nodes|
      ensures ready <==> Ready(g, Elements(Flatten(order)), i)
    {
      ReadinessTest(g, Types(), State(), i);
      assert g.NodeInRange(g.nodes[i]);
      for j := 0 to |g.nodes[i].inputs|
        invariant forall k :: 0 <= k < j ==> TensorReady(State(), g.nodes[i].inputs[k])
      {
        var t := g.nodes[i].inputs[j];
        assert t in g.nodes[i].inputs;
        if t != OPTIONAL_TENSOR && tensorEpochs[t] == NOT_READY {
          return false;
        }
      }
      return true;
    }

    /** Tries to put node `i` into the last subset; exactly the nodes that may join do. */
    method UpdateNode(i: nat) returns (did: bool)
      requires Valid() && i < |g.nodes| && |subsets| > 0
      modifies this`subsets, this`tensorEpochs, this`nodeEpochs, this`order
      ensures Valid()
      ensures did <==> old(MayJoin(g, Types(), State(), i))
      ensures if did then Joins(g, Types(), old(State()), i, State()) else State() == old(State())
    {
      var kind := nodeType[g.nodeIndex[i]];
      did := false;
      if nodeEpochs[i] == NOT_READY {
        var ready := InputsReady(i);
        var current := subsets[|subsets| - 1].kind;
        if ready && (current == Unexplored || current == kind) {
          Join(i);
          did := true;
        }
      }
    }

    method Join(i: nat)
      requires Valid() && i < |g.nodes| && |subsets| > 0 && MayJoin(g, Types(), State(), i)
      modifies this`subsets, this`tensorEpochs, this`nodeEpochs, this`order
      ensures Valid()
      ensures Joins(g, Types(), old(State()), i, State())
    {
      ghost var before := State();
      var c := |subsets| - 1;
      nodeEpochs := nodeEpochs[i := c];
      tensorEpochs := WithEpoch(tensorEpochs, g.nodes[i].outputs, c);
      EpochsStayInRange(g, Types(), before, i, tensorEpochs);
      var current := subsets[c];
      current := current.(kind := nodeType[g.nodeIndex[i]], nodes := current.nodes + [g.nodeIndex[i]]);
      subsets := RecordInputs(subsets[c := current], tensorEpochs, g.nodes[i].inputs, c);
      RecordingJoins(g, Types(), before, i, tensorEpochs, current, subsets);
      order := order[c := order[c] + [i]];
      JoinKeepsTracked(g, Types(), before, i, State());
    }

    static method WithEpoch(tensorEpochs: seq<int>, outputs: seq<int>, c: nat) returns (r: seq<int>)
      requires forall t :: t in outputs ==> 0 <= t < |tensorEpochs|
      ensures |r| == |tensorEpochs|
      ensures forall t :: 0 <= t < |r| ==> r[t] == if t in outputs then c else tensorEpochs[t]
    {
      r := tensorEpochs;
      for j := 0 to |outputs|
        invariant |r| == |tensorEpochs|
        invariant forall t :: 0 <= t < |r| ==> r[t] == if t in outputs[..j] then c else tensorEpochs[t]
      {
        assert outputs[j] in outputs;
        r := r[outputs[j] := c];
      }
    }

    /** One turn of the pass below. */
    method Turn(i: nat, did: bool, ghost start: Progress) returns (joined: bool)
      requires Valid() && i < |g.nodes| && |subsets| > 0 && PassedTo(g, Types(), start, State(), i, did)
      modifies this`subsets, this`tensorEpochs, this`nodeEpochs, this`order
      ensures Valid() && |subsets| > 0 && PassedTo(g, Types(), start, State(), i + 1, did || joined)
    {
      ghost var before := State();
      SamePermission(g, Types(), before, i);
      joined := UpdateNode(i);
      if joined {
        JoinIsInTurn(g, Types(), before.order, i, did);
        JoinExtends(g, Types(), before, i, State());
        ExtendsFurther(start.order, before.order, order);
      } else {
        RefusalIsInTurn(g, Types(), before.order, i, did);
        if !did {
          NorMayTheNext(g, Types(), before, i);
        }
      }
    }

    /** One pass over the plan; `did` tells whether any node joined. */
    method Pass() returns (did: bool)
      requires Valid() && |subsets| > 0 && BetweenPasses(g, Types(), order)
      modifies this`subsets, this`tensorEpochs, this`nodeEpochs, this`order
      ensures Valid() && Extends(old(order), order) && BetweenPasses(g, Types(), order)
      ensures if did then |Flatten(order)| > |Flatten(old(order))| else Stuck(g, Types(), State())
    {
      did := false;
      ghost var start := State();
      PassBegins(g, Types(), order);
      for i := 0 to |g.nodes|
        invariant Valid() && |subsets| > 0 && PassedTo(g, Types(), start, State(), i, did)
      {
        var joined := Turn(i, did, start);
        if joined {
          did := true;
        }
      }
      PassIsOver(g, Types(), order, did);
    }

    method OpenSubset()
      requires Valid()
      modifies this`subsets, this`order
      ensures Valid() && order == old(order) + [[]] && |subsets| > 0 && Flatten(order) == Flatten(old(order))
      ensures AllInTurn(g, Types(), old(order)) ==> BetweenPasses(g, Types(), order)
    {
      OpenKeepsTracked(g, Types(), State());
      OpenKeepsTurns(g, Types(), order);
      subsets := subsets + [NodeSubset(Unexplored, [], [], [])];
      order := order + [[]];
    }

    /** One more pass, after those since `start`. */
    method PassAgain(ghost start: seq<seq<int>>) returns (did: bool)
      requires Valid() && |subsets| > 0 && BetweenPasses(g, Types(), order) && Extends(start, order)
      modifies this`subsets, this`tensorEpochs, this`nodeEpochs, this`order
      ensures Valid() && |subsets| > 0 && BetweenPasses(g, Types(), order) && Extends(start, order)
      ensures |Flatten(order)| <= |g.nodes|
      ensures if did then |Flatten(order)| > |Flatten(old(order))|
              else |Flatten(order)| >= |Flatten(old(order))| && Stuck(g, Types(), State())
    {
      ghost var before := order;
      did := Pass();
      ExtendsFurther(start, before, order);
      DistinctFit(Flatten(order), |g.nodes|);
    }

    /** Passes over the plan until no node may join the last subset. */
    method FillSubset()
      requires Valid() && |subsets| > 0 && BetweenPasses(g, Types(), order)
      modifies this`subsets, this`tensorEpochs, this`nodeEpochs, this`order
      ensures Valid() && Extends(old(order), order) && Stuck(g, Types(), State()) && AllInTurn(g, Types(), order)
    {
      var did := true;
      ghost var start := order;
      while did
        invariant Valid() && |subsets| > 0 && BetweenPasses(g, Types(), order) && Extends(start, order)
        invariant !did ==> Stuck(g, Types(), State())
        decreases |g.nodes| - |Flatten(order)|, did
      {
        did := PassAgain(start);
      }
    }

    /** Opens a subset and fills it until no node may join. */
    method BuildNodeSubset()
      requires Valid() && AllInTurn(g, Types(), order)
      modifies this`subsets, this`tensorEpochs, this`nodeEpochs, this`order
      ensures Valid() && |order| == |old(order)| + 1 && order[..|old(order)|] == old(order)
      ensures Stuck(g, Types(), State()) && AllInTurn(g, Types(), order)
    {
      OpenSubset();
      FillSubset();
    }

    /** Takes back the last subset, which stayed empty. */
    method TakeBack(ghost before: Progress)
      requires Valid() && OneMoreSubset(g, Types(), before, State()) && order[|order| - 1] == []
      modifies this`subsets, this`order
      ensures Valid() && order == before.order && GreedySoFar(g, Types(), State()) && NothingReady(g, order)
    {
      CloseKeepsTracked(g, Types(), State());
      EmptyMeansNothingReady(g, Types(), before, State());
      subsets, order := subsets[..|subsets| - 1], order[..|order| - 1];
    }

    /** Builds one more subset, and takes it back if it stayed empty. */
    method BuildNext() returns (more: bool)
      requires Valid() && GreedySoFar(g, Types(), State()) && AllInTurn(g, Types(), order)
      modifies this`subsets, this`tensorEpochs, this`nodeEpochs, this`order
      ensures Valid() && GreedySoFar(g, Types(), State()) && AllInTurn(g, Types(), order)
      ensures if more then |Flatten(order)| > |Flatten(old(order))| else order == old(order) && NothingReady(g, order)
    {
      ghost var before := State();
      BuildNodeSubset();
      more := subsets[|subsets| - 1].nodes != [];
      FilledMeansNodes(g, Types(), State());
      if more {
        FilledIsGreedy(g, Types(), before, State());
      } else {
        TakeBack(before);
      }
    }

    /** Builds subsets until a new one stays empty. */
    method BuildNodeSubsets()
      requires Valid() && order == [] && GreedySoFar(g, Types(), State()) && AllInTurn(g, Types(), order)
      modifies this`subsets, this`tensorEpochs, this`nodeEpochs, this`order
      ensures Valid() && GreedySoFar(g, Types(), State()) && AllInTurn(g, Types(), order) && NothingReady(g, order)
    {
      var more := true;
      while more
        invariant Valid() && GreedySoFar(g, Types(), State()) && AllInTurn(g, Types(), order)
        invariant more || NothingReady(g, order)
        invariant |Flatten(order)| <= |g.nodes|
        decreases |g.nodes| - |Flatten(order)|, more
      {
        more := BuildNext();
        DistinctFit(Flatten(order), |g.nodes|);
      }
    }

    /** Nothing assigned yet: every tensor is ready but those that some node produces. */
    method Reset()
      requires GraphFits(g, nodeType)
      modifies this
      ensures Valid() && order == [] && GreedySoFar(g, Types(), State())
    {
      subsets, order := [], [];
      nodeEpochs := seq(|g.nodes|, _ => NOT_READY);
      tensorEpochs := seq(|g.tensors|, _ => ALWAYS_READY);
      for i := 0 to |g.nodes|
        invariant subsets == [] && order == [] && nodeEpochs == seq(|g.nodes|, _ => NOT_READY)
        invariant |tensorEpochs| == |g.tensors|
        invariant forall t :: 0 <= t < |g.tensors| ==>
                    tensorEpochs[t] == if exists k :: 0 <= k < i && g.Produces(k, t) then NOT_READY else ALWAYS_READY
      {
        assert g.NodeInRange(g.nodes[i]);
        forall t ensures (exists k :: 0 <= k <= i && g.Produces(k, t)) <==>
                         (exists k :: 0 <= k < i && g.Produces(k, t)) || t in g.nodes[i].outputs
        {
          assert g.Produces(i, t) <==> t in g.nodes[i].outputs;
        }
        tensorEpochs := NotReadyYet(tensorEpochs, g.nodes[i].outputs);
      }
      NothingTracked(g, Types(), State());
    }

    /** Completes the boundaries of finished subsets; nothing else about them changes. */
    method FinishBoundaries()
      requires Valid() && Covers(g, Elements(Flatten(order)))
      modifies this`subsets
      ensures |subsets| == |order| && KindsOf(subsets) == KindsOf(old(subsets))
      ensures forall e :: 0 <= e < |subsets| ==> SubsetTracked(g, Types(), subsets[e], order[e])
      ensures SingleProducer(g) ==> forall e :: 0 <= e < |subsets| ==> ExactBoundary(g, order, subsets[e], e)
    {
      ghost var built := State();
      assert forall t :: t in g.outputs ==> g.IsTensor(t);
      OutputsHaveEpochs(g, Types(), built);
      subsets := MarkOutputs(subsets, tensorEpochs, g.outputs);
      subsets := UniquefyAll(subsets);
      forall e | 0 <= e < |subsets|
        ensures subsets[e].kind == built.subsets[e].kind && SubsetTracked(g, Types(), subsets[e], order[e])
        ensures SingleProducer(g) ==> ExactBoundary(g, order, subsets[e], e)
      {
        assert SubsetTracked(g, Types(), built.subsets[e], order[e]);
        if SingleProducer(g) {
          BoundaryIsExact(g, Types(), built, subsets[e], e);
        }
      }
    }

    /** The whole partitioning. An execution plan without cycles is split greedily into subsets
        whose boundaries are exact. If its nodes use earlier nodes, every subset keeps their order. */
    method Partition()
      requires GraphFits(g, nodeType) && Schedulable(g)
      modifies this
      ensures OrderedPartition(g, Types(), order, KindsOf(subsets)) && Partitioned(g, Types(), order, KindsOf(subsets))
      ensures Real(KindsOf(subsets)) && |subsets| == |order|
      ensures Plain(g) ==> forall e :: 0 <= e < |order| ==> Sorted(order[e])
      ensures forall e :: 0 <= e < |subsets| ==> SubsetTracked(g, Types(), subsets[e], order[e])
      ensures SingleProducer(g) ==> forall e :: 0 <= e < |subsets| ==> ExactBoundary(g, order, subsets[e], e)
    {
      Reset();
      BuildNodeSubsets();
      AllAreListed(g, Types(), State());
      FinishBoundaries();
    }

    static method NotReadyYet(tensorEpochs: seq<int>, outputs: seq<int>) returns (r: seq<int>)
      requires forall t :: t in outputs ==> 0 <= t < |tensorEpochs|
      ensures |r| == |tensorEpochs|
      ensures forall t :: 0 <= t < |r| ==> r[t] == if t in outputs then NOT_READY else tensorEpochs[t]
    {
      r := tensorEpochs;
      for j := 0 to |outputs|
        invariant |r| == |tensorEpochs|
        invariant forall t :: 0 <= t < |r| ==> r[t] == if t in outputs[..j] then NOT_READY else tensorEpochs[t]
      {
        assert outputs[j] in outputs;
        r := r[outputs[j] := NOT_READY];
      }
    }
  }

  /** The loop that marks graph outputs as outputs of the subsets that produce them. */
  method MarkOutputs(subsets: seq<NodeSubset>, tensorEpochs: seq<int>, outputs: seq<int>) returns (r: seq<NodeSubset>)
    requires forall t :: t in outputs ==>
               0 <= t < |tensorEpochs| && (tensorEpochs[t] == ALWAYS_READY || 0 <= tensorEpochs[t] < |subsets|)
    ensures |r| == |subsets|
    ensures forall e :: 0 <= e < |r| ==> r[e] == subsets[e].(outputTensors := r[e].outputTensors)
    ensures forall e :: 0 <= e < |r| ==> forall t :: t in r[e].outputTensors <==>
              t in subsets[e].outputTensors || (t in outputs && 0 <= t < |tensorEpochs| && tensorEpochs[t] == e)
  {
    r := subsets;
    for j := 0 to |outputs|
      invariant |r| == |subsets|
      invariant forall e :: 0 <= e < |r| ==> r[e] == subsets[e].(outputTensors := r[e].outputTensors)
      invariant forall e :: 0 <= e < |r| ==> forall t :: t in r[e].outputTensors <==>
                  t in subsets[e].outputTensors ||
                  (t in outputs[..j] && 0 <= t < |tensorEpochs| && tensorEpochs[t] == e)
    {
      assert outputs[..j + 1] == outputs[..j] + [outputs[j]];
      assert outputs[j] in outputs;
      var epoch := tensorEpochs[outputs[j]];
      if epoch != ALWAYS_READY {
        r := r[epoch := r[epoch].(outputTensors := r[epoch].outputTensors + [outputs[j]])];
      }
    }
    assert outputs[..|outputs|] == outputs;
  }

  method UniquefyAll(subsets: seq<NodeSubset>) returns (r: seq<NodeSubset>)
    ensures |r| == |subsets|
    ensures forall e :: 0 <= e < |r| ==>
              && r[e].kind == subsets[e].kind && r[e].nodes == subsets[e].nodes
              && SortedSetOf(r[e].inputTensors, subsets[e].inputTensors)
              && SortedSetOf(r[e].outputTensors, subsets[e].outputTensors)
  {
    r := [];
    for e := 0 to |subsets|
      invariant |r| == e
      invariant forall k :: 0 <= k < e ==>
                  && r[k].kind == subsets[k].kind && r[k].nodes == subsets[k].nodes
                  && SortedSetOf(r[k].inputTensors, subsets[k].inputTensors)
                  && SortedSetOf(r[k].outputTensors, subsets[k].outputTensors)
    {
      var inputs := Uniquefy(subsets[e].inputTensors);
      var outputs := Uniquefy(subsets[e].outputTensors);
      r := r + [subsets[e].(inputTensors := inputs, outputTensors := outputs)];
    }
  }

  ghost predicate ProducedBy(g: Graph, nodes: seq<int>, t: int) {
    exists p :: 0 <= p < |nodes| && 0 <= nodes[p] < |g.nodes| && g.Produces(nodes[p], t)
  }

  ghost predicate ReadByOther(g: Graph, order: seq<seq<int>>, e: int, t: int) {
    exists k :: 0 <= k < |order| && k != e && ReadBy(g, order[k], t)
  }

  /** The boundary of a subset: sorted lists without repeats of what it reads and does not produce,
      and of what it produces for another subset or for the graph. */
  ghost predicate ExactBoundary(g: Graph, order: seq<seq<int>>, subset: NodeSubset, e: int)
    requires 0 <= e < |order|
  {
    && Sorted(subset.inputTensors) && Sorted(subset.outputTensors)
    && (forall t :: t in subset.inputTensors <==>
          t != OPTIONAL_TENSOR && ReadBy(g, order[e], t) && !ProducedBy(g, order[e], t))
    && (forall t :: t in subset.outputTensors <==>
          ProducedBy(g, order[e], t) && (t in g.outputs || ReadByOther(g, order, e, t)))
  }

  function KindsOf(subsets: seq<NodeSubset>): (kinds: seq<NodeType>)
    ensures |kinds| == |subsets| && forall e :: 0 <= e < |kinds| ==> kinds[e] == subsets[e].kind
  {
    seq(|subsets|, e requires 0 <= e < |subsets| => subsets[e].kind)
  }

  /** `order` is `before` with more nodes in the last subset. */
  ghost predicate Extends(before: seq<seq<int>>, order: seq<seq<int>>) {
    && |order| == |before| && |Flatten(order)| >= |Flatten(before)|
    && (before != [] ==> order[..|order| - 1] == before[..|order| - 1])
  }

  lemma JoinExtends(g: Graph, types: seq<NodeType>, s: Progress, i: int, r: Progress)
    requires Tracked(g, types, s) && 0 <= i < |g.nodes| && |s.order| > 0 && MayJoin(g, types, s, i)
    requires Joins(g, types, s, i, r)
    ensures Extends(s.order, r.order) && |Flatten(r.order)| > |Flatten(s.order)|
  {
    JoinExtendsSchedule(g, types, s, i, r);
  }

  /** Nodes listed so far are listed in turn, and none that comes up after the last one may still join. */
  ghost predicate BetweenPasses(g: Graph, types: seq<NodeType>, order: seq<seq<int>>)
    requires |types| == |g.nodes|
  {
    && order != [] && AllInTurn(g, types, order)
    && var before, nodes := Done(order, |order| - 1), order[|order| - 1];
       nodes != [] ==> forall k :: nodes[|nodes| - 1] < k ==> !MayCome(g, types, before, nodes, k)
  }

  /** A pass has come to node `i`: since the last node that joined, in this pass (`did`) or an earlier
      one, none may. */
  ghost predicate DuringPass(g: Graph, types: seq<NodeType>, order: seq<seq<int>>, i: int, did: bool)
    requires |types| == |g.nodes|
  {
    && order != [] && AllInTurn(g, types, order)
    && var before, nodes := Done(order, |order| - 1), order[|order| - 1];
       if did then
         && nodes != [] && nodes[|nodes| - 1] < i
         && forall k :: nodes[|nodes| - 1] < k < i ==> !MayCome(g, types, before, nodes, k)
       else
         forall k :: k < i || (nodes != [] && nodes[|nodes| - 1] < k) ==> !MayCome(g, types, before, nodes, k)
  }

  lemma SamePermission(g: Graph, types: seq<NodeType>, s: Progress, i: int)
    requires Tracked(g, types, s) && |s.order| > 0 && 0 <= i < |g.nodes|
    ensures MayJoin(g, types, s, i)
       <==> MayCome(g, types, Done(s.order, |s.order| - 1), s.order[|s.order| - 1], i)
  {
    var c := |s.order| - 1;
    EpochMeansScheduled(g, s, i);
    assert Elements(Flatten(s.order)) == Done(s.order, c) + Elements(s.order[c]);
    assert SubsetTracked(g, types, s.subsets[c], s.order[c]);
  }

  lemma JoinIsInTurn(g: Graph, types: seq<NodeType>, order: seq<seq<int>>, i: int, did: bool)
    requires |types| == |g.nodes| && DuringPass(g, types, order, i, did)
    requires var c := |order| - 1; MayCome(g, types, Done(order, c), order[c], i)
    ensures var c := |order| - 1;
            DuringPass(g, types, order[c := order[c] + [i]], i + 1, true)
  {
    var c := |order| - 1;
    var r := order[c := order[c] + [i]];
    assert r[..c] == order[..c] && r[c][..|order[c]|] == order[c];
    assert NextInTurn(g, types, Done(order, c), order[c], i);
  }

  lemma RefusalIsInTurn(g: Graph, types: seq<NodeType>, order: seq<seq<int>>, i: int, did: bool)
    requires |types| == |g.nodes| && DuringPass(g, types, order, i, did)
    requires var c := |order| - 1; !MayCome(g, types, Done(order, c), order[c], i)
    ensures DuringPass(g, types, order, i + 1, did)
  {
  }

  lemma PassBegins(g: Graph, types: seq<NodeType>, order: seq<seq<int>>)
    requires |types| == |g.nodes| && BetweenPasses(g, types, order)
    ensures DuringPass(g, types, order, 0, false)
  {
  }

  lemma PassIsOver(g: Graph, types: seq<NodeType>, order: seq<seq<int>>, did: bool)
    requires |types| == |g.nodes| && DuringPass(g, types, order, |g.nodes|, did)
    ensures BetweenPasses(g, types, order)
  {
  }

  lemma ExtendsFurther(a: seq<seq<int>>, b: seq<seq<int>>, c: seq<seq<int>>)
    requires Extends(a, b) && Extends(b, c)
    ensures Extends(a, c)
  {
  }

  /** No node may join the last subset. */
  ghost predicate Stuck(g: Graph, types: seq<NodeType>, s: Progress)
    requires |s.nodeEpochs| == |g.nodes| == |types| && |s.subsets| > 0
  {
    NoneMayJoin(g, types, s, |g.nodes|)
  }

  ghost predicate NoneMayJoin(g: Graph, types: seq<NodeType>, s: Progress, n: nat)
    requires |s.nodeEpochs| == |g.nodes| == |types| && |s.subsets| > 0 && n <= |g.nodes|
  {
    forall i :: 0 <= i < n ==> !MayJoin(g, types, s, i)
  }

  lemma NorMayTheNext(g: Graph, types: seq<NodeType>, s: Progress, n: nat)
    requires |s.nodeEpochs| == |g.nodes| == |types| && |s.subsets| > 0 && n < |g.nodes|
    requires NoneMayJoin(g, types, s, n) && !MayJoin(g, types, s, n)
    ensures NoneMayJoin(g, types, s, n + 1)
  {
  }

  /** A pass that began at `start` has come to node `i`. */
  ghost predicate PassedTo(g: Graph, types: seq<NodeType>, start: Progress, s: Progress, i: nat, did: bool)
    requires |types| == |g.nodes| && i <= |g.nodes|
  {
    && Extends(start.order, s.order) && DuringPass(g, types, s.order, i, did)
    && if did then |Flatten(s.order)| > |Flatten(start.order)|
       else s == start && |s.nodeEpochs| == |g.nodes| && |s.subsets| > 0 && NoneMayJoin(g, types, s, i)
  }

  lemma SameKinds(g: Graph, types: seq<NodeType>, before: Progress, s: Progress)
    requires Tracked(g, types, before) && Tracked(g, types, s)
    requires |before.order| <= |s.order| && s.order[..|before.order|] == before.order
    requires forall e :: 0 <= e < |before.order| ==> before.order[e] != []
    ensures forall e :: 0 <= e < |before.order| ==> s.subsets[e].kind == before.subsets[e].kind
  {
    forall e | 0 <= e < |before.order| ensures s.subsets[e].kind == before.subsets[e].kind {
      assert SubsetTracked(g, types, before.subsets[e], before.order[e]);
      assert SubsetTracked(g, types, s.subsets[e], s.order[e]);
      assert s.order[e] == before.order[e];
      assert types[s.order[e][0]] == s.subsets[e].kind;
    }
  }

  /** The subsets so far are those of a greedy partition. */
  ghost predicate GreedySoFar(g: Graph, types: seq<NodeType>, s: Progress) {
    Greedy(g, types, s.order, KindsOf(s.subsets)) && Real(KindsOf(s.subsets))
  }

  ghost predicate NothingReady(g: Graph, order: seq<seq<int>>) {
    forall i :: 0 <= i < |g.nodes| && i !in Flatten(order) ==> !Ready(g, Elements(Flatten(order)), i)
  }

  /** What `BuildNodeSubset` has just done. */
  ghost predicate OneMoreSubset(g: Graph, types: seq<NodeType>, before: Progress, s: Progress) {
    && Tracked(g, types, before) && Tracked(g, types, s) && Real(types) && GreedySoFar(g, types, before)
    && |s.order| == |before.order| + 1 && s.order[..|before.order|] == before.order
    && Stuck(g, types, s)
  }

  lemma EarlierKinds(g: Graph, types: seq<NodeType>, before: Progress, s: Progress)
    requires OneMoreSubset(g, types, before, s)
    ensures KindsOf(s.subsets)[..|before.order|] == KindsOf(before.subsets)
  {
    forall k | 0 <= k < |before.order| ensures before.order[k] != [] {
      assert GreedyAt(g, types, before.order, KindsOf(before.subsets), k);
    }
    SameKinds(g, types, before, s);
  }

  /** A subset that is filled extends a greedy partition. */
  lemma FilledIsGreedy(g: Graph, types: seq<NodeType>, before: Progress, s: Progress)
    requires OneMoreSubset(g, types, before, s) && s.order[|before.order|] != []
    ensures GreedySoFar(g, types, s) && |Flatten(s.order)| > |Flatten(before.order)|
  {
    var n, kinds := |before.order|, KindsOf(s.subsets);
    EarlierKinds(g, types, before, s);
    assert SubsetTracked(g, types, s.subsets[n], s.order[n]);
    forall k | 0 <= k < |s.order| ensures GreedyAt(g, types, s.order, kinds, k) && kinds[k] != Unexplored {
      if k < n {
        assert s.order[..k + 1] == before.order[..k + 1];
        assert GreedyAt(g, types, before.order, KindsOf(before.subsets), k);
        assert kinds[k] == KindsOf(before.subsets)[k];
      } else {
        assert s.order[..k + 1] == s.order;
        LastIsSaturated(g, types, s);
      }
    }
  }

  lemma FilledMeansNodes(g: Graph, types: seq<NodeType>, s: Progress)
    requires Tracked(g, types, s) && |s.order| > 0
    ensures s.subsets[|s.subsets| - 1].nodes != [] <==> s.order[|s.order| - 1] != []
  {
    assert SubsetTracked(g, types, s.subsets[|s.order| - 1], s.order[|s.order| - 1]);
  }

  lemma LastIsSaturated(g: Graph, types: seq<NodeType>, s: Progress)
    requires Tracked(g, types, s) && |s.order| > 0 && Stuck(g, types, s)
    ensures Saturated(g, types, Elements(Flatten(s.order)), s.subsets[|s.order| - 1].kind)
    ensures s.order[|s.order| - 1] == [] ==> NothingReady(g, s.order)
  {
    assert SubsetTracked(g, types, s.subsets[|s.order| - 1], s.order[|s.order| - 1]);
    forall i | 0 <= i < |g.nodes| && i !in Flatten(s.order)
      ensures s.order[|s.order| - 1] == [] || types[i] == s.subsets[|s.order| - 1].kind ==>
                !Ready(g, Elements(Flatten(s.order)), i)
    {
      EpochMeansScheduled(g, s, i);
      assert !MayJoin(g, types, s, i);
    }
  }

  /** A subset that stays empty means that no node outside the subsets is ready. */
  lemma EmptyMeansNothingReady(g: Graph, types: seq<NodeType>, before: Progress, s: Progress)
    requires OneMoreSubset(g, types, before, s) && s.order[|before.order|] == []
    ensures var n := |before.order|;
            GreedySoFar(g, types, s.(subsets := s.subsets[..n], order := s.order[..n])) && NothingReady(g, s.order[..n])
  {
    var n := |before.order|;
    EarlierKinds(g, types, before, s);
    assert KindsOf(s.subsets[..n]) == KindsOf(before.subsets);
    LastIsSaturated(g, types, s);
    assert Flatten(s.order) == Flatten(s.order[..n]) + [] == Flatten(s.order[..n]);
  }

  /** When nothing more is ready, the subsets are a partition of the plan. */
  lemma AllAreListed(g: Graph, types: seq<NodeType>, s: Progress)
    requires g.InRange() && Schedulable(g) && Tracked(g, types, s) && Real(types)
    requires GreedySoFar(g, types, s) && AllInTurn(g, types, s.order) && NothingReady(g, s.order)
    ensures OrderedPartition(g, types, s.order, KindsOf(s.subsets))
    ensures Partitioned(g, types, s.order, KindsOf(s.subsets))
    ensures Plain(g) ==> forall e :: 0 <= e < |s.order| ==> Sorted(s.order[e])
  {
    StuckMeansDone(g, Flatten(s.order));
    forall k | 0 <= k < |s.order| ensures OfType(types, s.order[k], KindsOf(s.subsets)[k]) {
      assert GreedyAt(g, types, s.order, KindsOf(s.subsets), k);
    }
    if Plain(g) {
      SubsetsAscend(g, types, s.order);
    }
  }

  lemma NothingTracked(g: Graph, types: seq<NodeType>, s: Progress)
    requires g.InRange() && |types| == |g.nodes| == |g.nodeIndex|
    requires s.subsets == [] && s.order == [] && s.nodeEpochs == seq(|g.nodes|, _ => NOT_READY)
    requires |s.tensorEpochs| == |g.tensors|
    requires forall t :: 0 <= t < |g.tensors| ==>
               s.tensorEpochs[t] ==
                 if exists k :: 0 <= k < |g.nodes| && g.Produces(k, t) then NOT_READY else ALWAYS_READY
    ensures Tracked(g, types, s) && GreedySoFar(g, types, s)
  {
    forall t | 0 <= t < |g.tensors| ensures TensorTracked(g, s, t) {
    }
  }

  /** In a finished partition every tensor has an epoch or needs none. */
  lemma OutputsHaveEpochs(g: Graph, types: seq<NodeType>, s: Progress)
    requires g.InRange() && Tracked(g, types, s) && Covers(g, Elements(Flatten(s.order)))
    ensures forall t :: 0 <= t < |g.tensors| ==>
              s.tensorEpochs[t] == ALWAYS_READY || 0 <= s.tensorEpochs[t] < |s.subsets|
  {
    forall t | 0 <= t < |g.tensors|
      ensures s.tensorEpochs[t] == ALWAYS_READY || 0 <= s.tensorEpochs[t] < |s.subsets|
    {
      assert TensorTracked(g, s, t);
      if HasProducer(g, t) {
        var k :| 0 <= k < |g.nodes| && g.Produces(k, t);
        EpochMeansScheduled(g, s, k);
        assert k in Elements(Flatten(s.order));
        assert s.tensorEpochs[t] >= 0 && ProducerDone(g, s, t, s.tensorEpochs[t]);
      }
    }
  }

  /** With one producer a tensor, its epoch says in which subset it is produced. */
  lemma EpochMeansProduced(g: Graph, types: seq<NodeType>, s: Progress, e: int, t: int)
    requires g.InRange() && SingleProducer(g) && Tracked(g, types, s) && 0 <= e < |s.order|
    ensures ProducedBy(g, s.order[e], t) <==> 0 <= t < |g.tensors| && s.tensorEpochs[t] == e
  {
    if ProducedBy(g, s.order[e], t) {
      var p :| 0 <= p < |s.order[e]| && 0 <= s.order[e][p] < |g.nodes| && g.Produces(s.order[e][p], t);
      assert g.NodeInRange(g.nodes[s.order[e][p]]);
      assert TensorTracked(g, s, t) && HasProducer(g, t) && s.nodeEpochs[s.order[e][p]] == e;
    }
    if 0 <= t < |g.tensors| && s.tensorEpochs[t] == e {
      assert TensorTracked(g, s, t);
      var k :| 0 <= k < |g.nodes| && g.Produces(k, t) && s.nodeEpochs[k] == e;
      assert k in s.order[e];
    }
  }

  lemma ReadElsewhereMeans(g: Graph, s: Progress, e: int, t: int)
    requires NodesTracked(g, s)
    ensures ReadElsewhere(g, s, e, t) <==> ReadByOther(g, s.order, e, t)
  {
    if ReadElsewhere(g, s, e, t) {
      var k :| 0 <= k < |g.nodes| && s.nodeEpochs[k] != NOT_READY && s.nodeEpochs[k] != e && g.Consumes(k, t);
      assert k in s.order[s.nodeEpochs[k]] && ReadBy(g, s.order[s.nodeEpochs[k]], t);
    }
    if ReadByOther(g, s.order, e, t) {
      var k :| 0 <= k < |s.order| && k != e && ReadBy(g, s.order[k], t);
      var p :| 0 <= p < |s.order[k]| && 0 <= s.order[k][p] < |g.nodes| && g.Consumes(s.order[k][p], t);
      assert s.nodeEpochs[s.order[k][p]] == k;
    }
  }

  lemma BoundaryIsExact(g: Graph, types: seq<NodeType>, s: Progress, r: NodeSubset, e: int)
    requires g.InRange() && SingleProducer(g) && Tracked(g, types, s) && 0 <= e < |s.order|
    requires Sorted(r.inputTensors) && Sorted(r.outputTensors)
    requires forall t :: t in r.inputTensors <==> t in s.subsets[e].inputTensors
    requires forall t :: t in r.outputTensors <==>
               t in s.subsets[e].outputTensors ||
               (t in g.outputs && 0 <= t < |s.tensorEpochs| && s.tensorEpochs[t] == e)
    ensures ExactBoundary(g, s.order, r, e)
  {
    forall t
      ensures t in r.inputTensors <==> t != OPTIONAL_TENSOR && ReadBy(g, s.order[e], t) && !ProducedBy(g, s.order[e], t)
      ensures t in r.outputTensors <==>
                ProducedBy(g, s.order[e], t) && (t in g.outputs || ReadByOther(g, s.order, e, t))
    {
      assert BoundaryTracked(g, s, e, t);
      EpochMeansProduced(g, types, s, e, t);
      ReadElsewhereMeans(g, s, e, t);
      if ReadBy(g, s.order[e], t) {
        var p :| 0 <= p < |s.order[e]| && 0 <= s.order[e][p] < |g.nodes| && g.Consumes(s.order[e][p], t);
        assert g.NodeInRange(g.nodes[s.order[e][p]]);
      }
    }
  }

  lemma EpochsStayInRange(g: Graph, types: seq<NodeType>, s: Progress, i: int, tensorEpochs: seq<int>)
    requires g.InRange() && Tracked(g, types, s) && 0 <= i < |g.nodes| && |s.order| > 0
    requires |tensorEpochs| == |s.tensorEpochs|
    requires forall t :: 0 <= t < |tensorEpochs| ==>
               tensorEpochs[t] == if t in g.nodes[i].outputs then |s.order| - 1 else s.tensorEpochs[t]
    ensures forall t :: t in g.nodes[i].inputs ==>
              t == OPTIONAL_TENSOR || (0 <= t < |tensorEpochs| && tensorEpochs[t] < |s.order|)
  {
    assert g.NodeInRange(g.nodes[i]);
    forall t | 0 <= t < |g.tensors| ensures s.tensorEpochs[t] < |s.order| {
      assert TensorTracked(g, s, t);
    }
  }
}
