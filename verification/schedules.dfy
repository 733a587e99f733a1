/** Orders in which the nodes of a graph can run, and ordered partitions into runs of one type. */
module Schedules {
  import opened Basics
  import opened GraphInfo

  datatype NodeType = Unexplored | Partition | NonPartition

  ghost predicate HasProducer(g: Graph, t: int) {
    exists k :: 0 <= k < |g.nodes| && g.Produces(k, t)
  }

  /** At most one node produces a tensor. */
  ghost predicate SingleProducer(g: Graph) {
    forall i, k, t :: 0 <= i < |g.nodes| && 0 <= k < |g.nodes| && g.Produces(i, t) && g.Produces(k, t) ==> i == k
  }

  ghost predicate ProducedIn(g: Graph, done: set<int>, t: int) {
    exists k :: k in done && 0 <= k < |g.nodes| && g.Produces(k, t)
  }

  /** Every given input of node `i` is a constant, a graph input or computed by a node of `done`. */
  ghost predicate Ready(g: Graph, done: set<int>, i: int)
    requires 0 <= i < |g.nodes|
  {
    forall t :: t in g.nodes[i].inputs ==> t == OPTIONAL_TENSOR || !HasProducer(g, t) || ProducedIn(g, done, t)
  }

  lemma ReadyGrows(g: Graph, done: set<int>, more: set<int>, i: int)
    requires 0 <= i < |g.nodes| && done <= more && Ready(g, done, i)
    ensures Ready(g, more, i)
  {
    forall t | t in g.nodes[i].inputs && ProducedIn(g, done, t) ensures ProducedIn(g, more, t) {
      var k :| k in done && 0 <= k < |g.nodes| && g.Produces(k, t);
      assert k in more;
    }
  }

  /** No node twice, and each one after what it needs. */
  ghost predicate Schedule(g: Graph, s: seq<int>) {
    && (forall p :: 0 <= p < |s| ==> 0 <= s[p] < |g.nodes|)
    && (forall p, q :: 0 <= p < q < |s| ==> s[p] != s[q])
    && (forall p :: 0 <= p < |s| ==> ReadyAt(g, s, p))
  }

  ghost predicate ReadyAt(g: Graph, s: seq<int>, p: int)
    requires 0 <= p < |s|
  {
    0 <= s[p] < |g.nodes| && Ready(g, Elements(s[..p]), s[p])
  }

  ghost predicate Covers(g: Graph, done: set<int>) {
    forall i :: 0 <= i < |g.nodes| ==> i in done
  }

  /** Some order runs every node: the plan has no cycle. */
  ghost predicate Schedulable(g: Graph) {
    exists s :: Schedule(g, s) && Covers(g, Elements(s))
  }

  lemma ScheduleExtends(g: Graph, s: seq<int>, i: int)
    requires Schedule(g, s) && 0 <= i < |g.nodes| && i !in s && Ready(g, Elements(s), i)
    ensures Schedule(g, s + [i])
  {
    var r := s + [i];
    forall p | 0 <= p < |r| ensures ReadyAt(g, r, p) {
      if p < |s| {
        assert r[..p] == s[..p] && ReadyAt(g, s, p);
      } else {
        assert r[..p] == s;
      }
    }
  }

  /** The execution plan itself as an order. */
  function PlanOrder(g: Graph): (s: seq<int>)
    ensures |s| == |g.nodes| && forall i :: 0 <= i < |s| ==> s[i] == i
  {
    seq(|g.nodes|, i => i)
  }

  /** Whatever a node is given is produced by an earlier one, if by any. */
  ghost predicate UsesEarlierNodes(g: Graph) {
    forall i, t :: 0 <= i < |g.nodes| && g.Consumes(i, t) && t != OPTIONAL_TENSOR && HasProducer(g, t) ==>
      exists k :: 0 <= k < i && g.Produces(k, t)
  }

  /** A plan whose nodes only use earlier nodes can run as it stands, and so has no cycle. */
  lemma PlanOrderIsSchedule(g: Graph)
    requires UsesEarlierNodes(g)
    ensures Schedule(g, PlanOrder(g)) && Covers(g, Elements(PlanOrder(g))) && Schedulable(g)
  {
    var s := PlanOrder(g);
    forall p | 0 <= p < |s| ensures ReadyAt(g, s, p) {
      forall t | t in g.nodes[p].inputs && t != OPTIONAL_TENSOR && HasProducer(g, t)
        ensures ProducedIn(g, Elements(s[..p]), t)
      {
        assert g.Consumes(p, t);
        var k :| 0 <= k < p && g.Produces(k, t);
        assert s[..p][k] == k;
      }
    }
    assert Schedule(g, s);
    forall i | 0 <= i < |g.nodes| ensures i in s {
      assert s[i] == i;
    }
  }

  /** When nothing outside `done` is ready, `done` is the whole plan exactly if the plan has no
      cycle. */
  lemma StuckMeansDone(g: Graph, s: seq<int>)
    requires Schedule(g, s)
    requires forall i :: 0 <= i < |g.nodes| && i !in s ==> !Ready(g, Elements(s), i)
    ensures Covers(g, Elements(s)) <==> Schedulable(g)
  {
    if Schedulable(g) {
      var other :| Schedule(g, other) && Covers(g, Elements(other));
      StuckSwallows(g, Elements(s), other, |other|);
      assert other[..|other|] == other;
    }
  }

  lemma {:induction false} StuckSwallows(g: Graph, done: set<int>, other: seq<int>, n: nat)
    requires Schedule(g, other) && n <= |other|
    requires forall i :: 0 <= i < |g.nodes| && i !in done ==> !Ready(g, done, i)
    ensures Elements(other[..n]) <= done
  {
    if n > 0 {
      StuckSwallows(g, done, other, n - 1);
      assert ReadyAt(g, other, n - 1);
      ReadyGrows(g, Elements(other[..n - 1]), done, other[n - 1]);
      assert other[..n] == other[..n - 1] + [other[n - 1]];
    }
  }

  // ----- Ordered partitions ----------------------------------------------------------------------

  function Flatten(order: seq<seq<int>>): seq<int> {
    if order == [] then [] else Flatten(order[..|order| - 1]) + order[|order| - 1]
  }

  /** What the first `k` subsets contain. */
  function Done(order: seq<seq<int>>, k: nat): set<int>
    requires k <= |order|
  {
    Elements(Flatten(order[..k]))
  }

  lemma DoneNext(order: seq<seq<int>>, k: nat)
    requires k < |order|
    ensures Done(order, k + 1) == Done(order, k) + Elements(order[k])
    ensures Flatten(order[..k + 1]) == Flatten(order[..k]) + order[k]
  {
    assert order[..k + 1][..k] == order[..k];
  }

  lemma {:induction false} DoneGrows(order: seq<seq<int>>, j: nat, k: nat)
    requires j <= k <= |order|
    ensures Done(order, j) <= Done(order, k)
  {
    if j < k {
      DoneGrows(order, j, k - 1);
      DoneNext(order, k - 1);
    }
  }

  /** Nodes of one type, given the type of every node. */
  ghost predicate OfType(types: seq<NodeType>, nodes: seq<int>, t: NodeType) {
    forall p :: 0 <= p < |nodes| ==> 0 <= nodes[p] < |types| && types[nodes[p]] == t
  }

  /** An ordered partition of the whole plan into subsets of one type each, that can run in order. */
  ghost predicate OrderedPartition(g: Graph, types: seq<NodeType>, order: seq<seq<int>>, kinds: seq<NodeType>) {
    && |types| == |g.nodes| && |kinds| == |order|
    && Schedule(g, Flatten(order)) && Covers(g, Elements(Flatten(order)))
    && (forall k :: 0 <= k < |order| ==> OfType(types, order[k], kinds[k]))
  }

  /** No node of type `t` outside `done` could still be added. */
  ghost predicate Saturated(g: Graph, types: seq<NodeType>, done: set<int>, t: NodeType)
    requires |types| == |g.nodes|
  {
    forall i :: 0 <= i < |g.nodes| && i !in done && types[i] == t ==> !Ready(g, done, i)
  }

  /** What the greedy partitioner builds: every subset non-empty, of one type, and as large as it
      can be. */
  ghost predicate Greedy(g: Graph, types: seq<NodeType>, order: seq<seq<int>>, kinds: seq<NodeType>) {
    && |types| == |g.nodes| && |kinds| == |order|
    && Schedule(g, Flatten(order))
    && (forall k :: 0 <= k < |order| ==> GreedyAt(g, types, order, kinds, k))
  }

  ghost predicate GreedyAt(g: Graph, types: seq<NodeType>, order: seq<seq<int>>, kinds: seq<NodeType>, k: int)
    requires |types| == |g.nodes| && |kinds| == |order| && 0 <= k < |order|
  {
    order[k] != [] && OfType(types, order[k], kinds[k]) && Saturated(g, types, Done(order, k + 1), kinds[k])
  }

  ghost predicate Real(kinds: seq<NodeType>) {
    forall k :: 0 <= k < |kinds| ==> kinds[k] != Unexplored
  }

  /** Node `i` is new, ready after `before` and `nodes`, and of the type of `nodes`. */
  ghost predicate MayCome(g: Graph, types: seq<NodeType>, before: set<int>, nodes: seq<int>, i: int)
    requires |types| == |g.nodes|
  {
    && 0 <= i < |g.nodes| && i !in before && i !in nodes && Ready(g, before + Elements(nodes), i)
    && (nodes != [] ==> 0 <= nodes[0] < |types| && types[i] == types[nodes[0]])
  }

  /** Going round the plan, `k` comes up after the last one of `nodes` and before `i`. */
  predicate ComesUpBefore(nodes: seq<int>, k: int, i: int) {
    var last := if nodes == [] then -1 else nodes[|nodes| - 1];
    if last < i then last < k < i else last < k || k < i
  }

  /** Node `i` is the next to join `nodes`: the first one that may, going round. */
  ghost predicate NextInTurn(g: Graph, types: seq<NodeType>, before: set<int>, nodes: seq<int>, i: int)
    requires |types| == |g.nodes|
  {
    && MayCome(g, types, before, nodes, i)
    && forall k :: ComesUpBefore(nodes, k, i) ==> !MayCome(g, types, before, nodes, k)
  }

  /** A subset lists the nodes that join in a first pass over the plan, then those of a second one, ... */
  ghost predicate InTurn(g: Graph, types: seq<NodeType>, before: set<int>, nodes: seq<int>)
    requires |types| == |g.nodes|
  {
    nodes == [] ||
    var n := |nodes| - 1;
    InTurn(g, types, before, nodes[..n]) && NextInTurn(g, types, before, nodes[..n], nodes[n])
  }

  lemma {:induction false} InTurnBefore(g: Graph, types: seq<NodeType>, before: set<int>, nodes: seq<int>, n: nat)
    requires |types| == |g.nodes| && InTurn(g, types, before, nodes) && n <= |nodes|
    ensures InTurn(g, types, before, nodes[..n])
    ensures n < |nodes| ==> NextInTurn(g, types, before, nodes[..n], nodes[n])
  {
    if n == |nodes| {
      assert nodes[..n] == nodes;
    } else {
      var front := nodes[..|nodes| - 1];
      InTurnBefore(g, types, before, front, n);
      assert front[..n] == nodes[..n];
    }
  }

  ghost predicate AllInTurn(g: Graph, types: seq<NodeType>, order: seq<seq<int>>)
    requires |types| == |g.nodes|
  {
    order == [] ||
    var n := |order| - 1;
    AllInTurn(g, types, order[..n]) && InTurn(g, types, Done(order, n), order[n])
  }

  lemma {:induction false} EachInTurn(g: Graph, types: seq<NodeType>, order: seq<seq<int>>, e: nat)
    requires |types| == |g.nodes| && AllInTurn(g, types, order) && e < |order|
    ensures InTurn(g, types, Done(order, e), order[e])
  {
    var n := |order| - 1;
    if e < n {
      EachInTurn(g, types, order[..n], e);
      assert order[..n][..e] == order[..e];
    }
  }

  /** What the partitioner makes of a plan without cycles. */
  ghost predicate Partitioned(g: Graph, types: seq<NodeType>, order: seq<seq<int>>, kinds: seq<NodeType>) {
    && Real(types) && Greedy(g, types, order, kinds)
    && Covers(g, Elements(Flatten(order))) && AllInTurn(g, types, order)
  }

  lemma {:induction false} FlattenSplits(order: seq<seq<int>>, k: nat)
    requires k <= |order|
    ensures Flatten(order[..k]) <= Flatten(order)
    decreases |order|
  {
    if k == |order| {
      assert order[..k] == order;
    } else {
      var front := order[..|order| - 1];
      FlattenSplits(front, k);
      assert front[..k] == order[..k];
    }
  }

  /** The first node of a subset is ready before the subset, and not in it yet. */
  lemma FirstIsReady(g: Graph, order: seq<seq<int>>, k: nat)
    requires k < |order| && order[k] != [] && Schedule(g, Flatten(order))
    ensures 0 <= order[k][0] < |g.nodes|
    ensures order[k][0] !in Done(order, k) && Ready(g, Done(order, k), order[k][0])
  {
    var s, p := Flatten(order), |Flatten(order[..k])|;
    DoneNext(order, k);
    FlattenSplits(order, k);
    FlattenSplits(order, k + 1);
    assert s[p] == order[k][0] && s[..p] == Flatten(order[..k]);
    assert ReadyAt(g, s, p);
    assert s[p] !in s[..p];
  }

  /** Adjacent greedy subsets have different types. */
  lemma GreedyAlternates(g: Graph, types: seq<NodeType>, order: seq<seq<int>>, kinds: seq<NodeType>, k: nat)
    requires Greedy(g, types, order, kinds) && k + 1 < |order|
    ensures kinds[k] != kinds[k + 1]
  {
    assert GreedyAt(g, types, order, kinds, k) && GreedyAt(g, types, order, kinds, k + 1);
    FirstIsReady(g, order, k + 1);
  }

  // ----- Near-optimality ---------------------------------------------------------------------------

  /** The greedy epoch by which subset `j` of another partition is done: one epoch more for every
      change of type, and one if the two start with different types. */
  function Epoch(kinds: seq<NodeType>, other: seq<NodeType>, j: nat): (e: nat)
    requires j < |other| && |kinds| > 0
    ensures e <= j + (if other[0] == kinds[0] then 0 else 1)
  {
    if j == 0 then (if other[0] == kinds[0] then 0 else 1)
    else if other[j] == other[j - 1] then Epoch(kinds, other, j - 1)
    else Epoch(kinds, other, j - 1) + 1
  }

  lemma {:induction false} EpochTypeMatches(g: Graph, types: seq<NodeType>, order: seq<seq<int>>,
                                            kinds: seq<NodeType>, other: seq<NodeType>, j: nat)
    requires Greedy(g, types, order, kinds) && Real(kinds) && Real(other)
    requires |kinds| > 0 && j < |other| && Epoch(kinds, other, j) < |kinds|
    ensures kinds[Epoch(kinds, other, j)] == other[j]
  {
    var e := Epoch(kinds, other, j);
    if e > 0 {
      GreedyAlternates(g, types, order, kinds, e - 1);
    }
    if j > 0 {
      EpochTypeMatches(g, types, order, kinds, other, j - 1);
    }
  }

  function Capped(e: nat, n: nat): nat { if e < n then e else n }

  /** Greedy keeps up: by its epoch for subset `j`, everything the other partition has scheduled up
      to and including `j` is done. */
  lemma {:induction false} GreedyKeepsUp(g: Graph, types: seq<NodeType>, order: seq<seq<int>>, kinds: seq<NodeType>,
                                         other: seq<seq<int>>, otherKinds: seq<NodeType>, j: nat)
    requires Greedy(g, types, order, kinds) && Covers(g, Elements(Flatten(order))) && Real(kinds) && |order| > 0
    requires OrderedPartition(g, types, other, otherKinds) && Real(otherKinds) && j < |other|
    ensures Done(other, j + 1) <= Done(order, Capped(Epoch(kinds, otherKinds, j) + 1, |order|))
  {
    var e := Epoch(kinds, otherKinds, j);
    var cap := Capped(e + 1, |order|);
    var target := Done(order, cap);
    if j > 0 {
      GreedyKeepsUp(g, types, order, kinds, other, otherKinds, j - 1);
      DoneGrows(order, Capped(Epoch(kinds, otherKinds, j - 1) + 1, |order|), cap);
    }
    assert Done(other, j) <= target;
    DoneNext(other, j);
    if e + 1 > |order| {
      assert order[..|order|] == order;
      forall i | i in Done(other, j + 1) ensures i in target {
        InRangeOf(g, other, j + 1, i);
      }
    } else {
      EpochTypeMatches(g, types, order, kinds, otherKinds, j);
      assert GreedyAt(g, types, order, kinds, e);
      SaturatedAbsorbs(g, types, target, kinds[e], other, j, |other[j]|);
      assert other[j][..|other[j]|] == other[j];
    }
  }

  lemma InRangeOf(g: Graph, other: seq<seq<int>>, k: nat, i: int)
    requires k <= |other| && Schedule(g, Flatten(other)) && i in Done(other, k)
    ensures 0 <= i < |g.nodes|
  {
    FlattenSplits(other, k);
    var p :| 0 <= p < |Flatten(other[..k])| && Flatten(other[..k])[p] == i;
    assert Flatten(other)[p] == i;
  }

  /** A saturated set swallows a subset of its type, node by node. */
  lemma {:induction false} SaturatedAbsorbs(g: Graph, types: seq<NodeType>, target: set<int>, t: NodeType,
                                            other: seq<seq<int>>, j: nat, n: nat)
    requires |types| == |g.nodes| && Saturated(g, types, target, t)
    requires j < |other| && n <= |other[j]| && OfType(types, other[j], t)
    requires Schedule(g, Flatten(other)) && Done(other, j) <= target
    ensures Elements(other[j][..n]) <= target
  {
    if n > 0 {
      SaturatedAbsorbs(g, types, target, t, other, j, n - 1);
      var s, p := Flatten(other), |Flatten(other[..j])| + n - 1;
      DoneNext(other, j);
      FlattenSplits(other, j + 1);
      assert s[p] == other[j][n - 1] && s[..p] == Flatten(other[..j]) + other[j][..n - 1];
      assert ReadyAt(g, s, p);
      assert Elements(s[..p]) == Done(other, j) + Elements(other[j][..n - 1]);
      ReadyGrows(g, Elements(s[..p]), target, s[p]);
      assert other[j][..n] == other[j][..n - 1] + [other[j][n - 1]];
    }
  }

  /** The greedy partition has at most one subset more than any other, and no more than any that
      starts with the same type. */
  lemma GreedyIsNearOptimal(g: Graph, types: seq<NodeType>, order: seq<seq<int>>, kinds: seq<NodeType>,
                            other: seq<seq<int>>, otherKinds: seq<NodeType>)
    requires Greedy(g, types, order, kinds) && Covers(g, Elements(Flatten(order))) && Real(kinds)
    requires OrderedPartition(g, types, other, otherKinds) && Real(otherKinds)
    ensures |order| <= |other| + 1
    ensures |order| > 0 && |other| > 0 && kinds[0] == otherKinds[0] ==> |order| <= |other|
  {
    if |order| > 0 && |other| > 0 {
      var m, e := |other|, Epoch(kinds, otherKinds, |other| - 1);
      GreedyKeepsUp(g, types, order, kinds, other, otherKinds, m - 1);
      assert other[..m] == other;
      if e + 1 < |order| {
        assert GreedyAt(g, types, order, kinds, e + 1);
        FirstIsReady(g, order, e + 1);
      }
    } else if |order| > 0 {
      assert GreedyAt(g, types, order, kinds, 0);
      FirstIsReady(g, order, 0);
    }
  }

  /** Three nodes, the third of the first one's type but fed by the second. */
  ghost predicate FedBySecond(g: Graph, types: seq<NodeType>) {
    && |g.nodes| == 3 && types == [Partition, NonPartition, Partition]
    && Ready(g, Elements([]), 0) && Ready(g, Elements([]), 1)
    && !Ready(g, Elements([0]), 2) && Ready(g, Elements([0, 1]), 2) && Ready(g, Elements([1, 0]), 2)
  }

  lemma ThreeInOrder(g: Graph, a: int, b: int)
    requires |g.nodes| == 3 && 0 <= a < 2 && b == 1 - a
    requires Ready(g, Elements([]), a) && Ready(g, Elements([]), b) && Ready(g, Elements([a, b]), 2)
    ensures Schedule(g, [a, b, 2])
  {
    ScheduleExtends(g, [], a);
    assert [] + [a] == [a];
    ReadyGrows(g, Elements([]), Elements([a]), b);
    ScheduleExtends(g, [a], b);
    assert [a] + [b] == [a, b];
    ScheduleExtends(g, [a, b], 2);
    assert [a, b] + [2] == [a, b, 2];
  }

  lemma ThreeCover(g: Graph, s: seq<int>)
    requires |g.nodes| == 3 && |s| == 3 && s[2] == 2 && {s[0], s[1]} == {0, 1}
    ensures Covers(g, Elements(s))
  {
    forall i | 0 <= i < 3 ensures i in s {
      assert i in {s[0], s[1]} || i == s[2];
    }
  }

  lemma GreedyNeedsThree(g: Graph, types: seq<NodeType>, order: seq<seq<int>>, kinds: seq<NodeType>)
    requires FedBySecond(g, types)
    requires order == [[0], [1], [2]] && kinds == [Partition, NonPartition, Partition]
    ensures Greedy(g, types, order, kinds) && Covers(g, Elements(Flatten(order)))
  {
    FlattenThree(order);
    ThreeInOrder(g, 0, 1);
    ThreeCover(g, [0, 1, 2]);
    assert GreedyAt(g, types, order, kinds, 0) by {
      assert 0 in [0];
      assert Saturated(g, types, Elements([0]), Partition);
    }
    assert GreedyAt(g, types, order, kinds, 1) by {
      assert 1 in [0, 1] by { assert [0, 1][1] == 1; }
      assert Saturated(g, types, Elements([0, 1]), NonPartition);
    }
    assert GreedyAt(g, types, order, kinds, 2);
  }

  lemma FlattenThree(order: seq<seq<int>>)
    requires order == [[0], [1], [2]]
    ensures Flatten(order[..1]) == [0] && Flatten(order[..2]) == [0, 1]
    ensures Flatten(order[..3]) == Flatten(order) == [0, 1, 2]
  {
    assert order[..3] == order;
    assert order[..3][..2] == order[..2];
    assert order[..2][..1] == order[..1];
    assert |order[..1][..0]| == 0;
  }

  lemma TwoSuffice(g: Graph, types: seq<NodeType>, order: seq<seq<int>>, kinds: seq<NodeType>)
    requires FedBySecond(g, types)
    requires order == [[1], [0, 2]] && kinds == [NonPartition, Partition]
    ensures OrderedPartition(g, types, order, kinds)
  {
    assert |order[..1][..0]| == 0 && Flatten(order[..1]) == [1] && Flatten(order) == [1, 0, 2];
    ThreeInOrder(g, 1, 0);
    ThreeCover(g, [1, 0, 2]);
  }

  lemma SuchAGraph(g: Graph)
    requires g.nodes == [Node([], [0], []), Node([], [1], []), Node([1], [2], [])]
    ensures FedBySecond(g, [Partition, NonPartition, Partition])
  {
    assert g.Produces(1, 1);
    assert !Ready(g, Elements([0]), 2) by {
      assert 1 in g.nodes[2].inputs && HasProducer(g, 1);
    }
    assert ProducedIn(g, Elements([0, 1]), 1) by {
      assert [0, 1][1] in [0, 1];
    }
    assert ProducedIn(g, Elements([1, 0]), 1) by {
      assert [1, 0][0] in [1, 0];
    }
  }

  /** A greedy partition with one subset more than another one of the same plan. */
  ghost predicate OneMore(g: Graph, types: seq<NodeType>, order: seq<seq<int>>, kinds: seq<NodeType>,
                          other: seq<seq<int>>, otherKinds: seq<NodeType>) {
    && Greedy(g, types, order, kinds) && Covers(g, Elements(Flatten(order))) && Real(kinds)
    && OrderedPartition(g, types, other, otherKinds) && Real(otherKinds)
    && |order| == |other| + 1
  }

  lemma ThreeAgainstTwo(g: Graph, types: seq<NodeType>, order: seq<seq<int>>, kinds: seq<NodeType>,
                        other: seq<seq<int>>, otherKinds: seq<NodeType>)
    requires FedBySecond(g, types)
    requires order == [[0], [1], [2]] && kinds == [Partition, NonPartition, Partition]
    requires other == [[1], [0, 2]] && otherKinds == [NonPartition, Partition]
    ensures OneMore(g, types, order, kinds, other, otherKinds)
  {
    GreedyNeedsThree(g, types, order, kinds);
    TwoSuffice(g, types, other, otherKinds);
  }

  /** The bound is tight: greedy may need one subset more than another partition. */
  lemma GreedyCanNeedOneMore()
    ensures exists g, types, order, kinds, other, otherKinds :: OneMore(g, types, order, kinds, other, otherKinds)
  {
    var g := Graph([], [Node([], [0], []), Node([], [1], []), Node([1], [2], [])], [], 0, [], [], []);
    var types := [Partition, NonPartition, Partition];
    SuchAGraph(g);
    ThreeAgainstTwo(g, types, [[0], [1], [2]], types, [[1], [0, 2]], [NonPartition, Partition]);
  }
}
