/** When partitioning keeps the order of nodes that update variables: a condition on the graph alone,
    whatever goes to the delegate. */
module UpdateOrder {
  import opened Basics
  import opened GraphInfo
  import opened Schedules
  import opened GraphPartition
  import opened PartitionOrder
  import opened PartitionValues

  // ----- Chains of dependencies ----------------------------------------------------------------------

  ghost predicate Feeds(g: Graph, i: int, j: int) {
    0 <= i < |g.nodes| && 0 <= j < |g.nodes| && exists t :: g.Produces(i, t) && g.Consumes(j, t)
  }

  /** Node `j` needs something that goes back, over any number of nodes, to an output of node `i`. */
  ghost predicate Linked(g: Graph, i: int, j: int)
    decreases j
  {
    Feeds(g, i, j) || exists k :: 0 <= k < j && Linked(g, i, k) && Feeds(g, k, j)
  }

  lemma FeedsLater(g: Graph, i: int, j: int)
    requires Plain(g) && Feeds(g, i, j)
    ensures i < j
  {
    var t :| g.Produces(i, t) && g.Consumes(j, t);
    assert g.NodeInRange(g.nodes[i]) && HasProducer(g, t);
    var k :| 0 <= k < j && g.Produces(k, t);
    assert k == i;
  }

  lemma {:induction false} LinkedFrom(g: Graph, i: int, k: int, j: int)
    requires Plain(g) && Feeds(g, i, k) && Linked(g, k, j)
    ensures Linked(g, i, j)
    decreases j
  {
    if Feeds(g, k, j) {
      FeedsLater(g, i, k);
      FeedsLater(g, k, j);
      assert Linked(g, i, k);
    } else {
      var m :| 0 <= m < j && Linked(g, k, m) && Feeds(g, m, j);
      LinkedFrom(g, i, k, m);
    }
  }

  lemma PrecedesTwice(g: Graph, s: seq<int>, i: int, k: int, j: int)
    requires Schedule(g, s) && Precedes(s, i, k) && Precedes(s, k, j)
    ensures Precedes(s, i, j)
  {
    var p, q :| 0 <= p < q < |s| && s[p] == i && s[q] == k;
    var q', r :| 0 <= q' < r < |s| && s[q'] == k && s[r] == j;
    assert q == q';
  }

  /** Every dependency order keeps linked nodes in order. */
  lemma {:induction false} LinkedPrecedes(g: Graph, s: seq<int>, i: int, j: int)
    requires Plain(g) && WholeSchedule(g, s) && Linked(g, i, j)
    ensures Precedes(s, i, j)
    decreases j
  {
    if Feeds(g, i, j) {
      var t :| g.Produces(i, t) && g.Consumes(j, t);
      ProducerFirst(g, s, i, j, t);
    } else {
      var k :| 0 <= k < j && Linked(g, i, k) && Feeds(g, k, j);
      LinkedPrecedes(g, s, i, k);
      var t :| g.Produces(k, t) && g.Consumes(j, t);
      ProducerFirst(g, s, k, j, t);
      PrecedesTwice(g, s, i, k, j);
    }
  }

  // ----- The condition ---------------------------------------------------------------------------------

  /** Nodes that touch a variable, one of them writing it, are linked - but for the first node, with
      which every partition starts. */
  ghost predicate ConflictsAreLinked(g: Graph, u: Updates) {
    forall i, j, v :: 0 < i < j && Conflict(g, u, i, j, v) ==> Linked(g, i, j)
  }

  lemma PlanPrecedes(g: Graph, i: int, j: int)
    ensures Precedes(PlanOrder(g), i, j) <==> 0 <= i < j < |g.nodes|
  {
    var s := PlanOrder(g);
    assert 0 <= i < j < |g.nodes| ==> s[i] == i && s[j] == j;
  }

  /** Partitions start with the first node. */
  lemma StartsPlan(g: Graph, types: seq<NodeType>, order: seq<seq<int>>, kinds: seq<NodeType>)
    requires UsesEarlierNodes(g) && Partitioned(g, types, order, kinds) && g.nodes != []
    ensures order != [] && order[0] != [] && order[0] <= Flatten(order) && Flatten(order)[0] == 0
  {
    assert 0 in Elements(Flatten(order));
    assert order == [] ==> Flatten(order) == [];
    assert GreedyAt(g, types, order, kinds, 0);
    FirstOfFlatten(order);
    StartsWithFirst(g, types, order);
  }

  /** It is enough: whatever the types, every partition keeps updates in order. */
  lemma LinkedIsEnough(g: Graph, u: Updates, types: seq<NodeType>, order: seq<seq<int>>, kinds: seq<NodeType>)
    requires Plain(g) && ConflictsAreLinked(g, u) && Partitioned(g, types, order, kinds)
    ensures OrderedAlike(g, u, PlanOrder(g), Flatten(order))
  {
    var s := Flatten(order);
    if g.nodes != [] {
      StartsPlan(g, types, order, kinds);
    }
    forall i, j, v | Conflict(g, u, i, j, v) && Precedes(PlanOrder(g), i, j) ensures Precedes(s, i, j) {
      PlanPrecedes(g, i, j);
      if i == 0 {
        var q := PlaceOf(g, s, j);
        assert s[0] == 0 && s[q] == j;
      } else {
        LinkedPrecedes(g, s, i, j);
      }
    }
  }

  // ----- It is needed ------------------------------------------------------------------------------------

  /** The members of `s` below `n`, in ascending order. */
  ghost function Select(n: nat, s: set<int>): (r: seq<int>)
    ensures forall p :: 0 <= p < |r| ==> 0 <= r[p] < n && r[p] in s
    ensures forall p, q :: 0 <= p < q < |r| ==> r[p] < r[q]
    ensures forall k :: 0 <= k < n && k in s ==> k in r
  {
    if n == 0 then [] else if n - 1 in s then Select(n - 1, s) + [n - 1] else Select(n - 1, s)
  }

  lemma SelectedBefore(n: nat, s: set<int>, p: nat, k: int)
    requires p < |Select(n, s)| && k in s && 0 <= k < Select(n, s)[p]
    ensures k in Select(n, s)[..p]
  {
    var r := Select(n, s);
    assert k in r;
    var q :| 0 <= q < |r| && r[q] == k;
    assert q < p && r[..p][q] == k;
  }

  /** What a delegate takes that runs node `j`, whatever that needs, and the first node. */
  ghost function Delegated(g: Graph, j: int): set<int> {
    set k | 0 <= k < |g.nodes| && (k == 0 || k == j || Linked(g, k, j))
  }

  ghost function Others(g: Graph, j: int): set<int> {
    set k | 0 <= k < |g.nodes| && k !in Delegated(g, j)
  }

  /** Whatever the delegate's nodes are given comes from the delegate's nodes. */
  lemma NeedsOfDelegated(g: Graph, j: int, k: int, m: int)
    requires Plain(g) && 0 < j < |g.nodes| && m in Delegated(g, j) && Feeds(g, k, m)
    ensures k in Delegated(g, j)
  {
    FeedsLater(g, k, m);
    if m == j {
      assert Linked(g, k, j);
    } else {
      LinkedFrom(g, k, m, j);
    }
  }

  lemma FedIsReady(g: Graph, done: set<int>, i: int)
    requires Plain(g) && 0 <= i < |g.nodes| && forall k :: Feeds(g, k, i) ==> k in done
    ensures Ready(g, done, i)
  {
    forall t | t in g.nodes[i].inputs && t != OPTIONAL_TENSOR && HasProducer(g, t) ensures ProducedIn(g, done, t) {
      assert g.Consumes(i, t);
      var k :| 0 <= k < i && g.Produces(k, t);
      assert Feeds(g, k, i);
    }
  }

  lemma DelegatedReady(g: Graph, j: int, p: nat)
    requires Plain(g) && 0 < j < |g.nodes| && p < |Select(|g.nodes|, Delegated(g, j))|
    ensures ReadyAt(g, Select(|g.nodes|, Delegated(g, j)), p)
  {
    var n, d := |g.nodes|, Delegated(g, j);
    var a := Select(n, d);
    forall k | Feeds(g, k, a[p]) ensures k in Elements(a[..p]) {
      NeedsOfDelegated(g, j, k, a[p]);
      FeedsLater(g, k, a[p]);
      SelectedBefore(n, d, p, k);
    }
    FedIsReady(g, Elements(a[..p]), a[p]);
  }

  lemma OtherReady(g: Graph, j: int, p: nat)
    requires Plain(g) && 0 < j < |g.nodes| && p < |Select(|g.nodes|, Others(g, j))|
    ensures var a, b := Select(|g.nodes|, Delegated(g, j)), Select(|g.nodes|, Others(g, j));
            Ready(g, Elements(a) + Elements(b[..p]), b[p])
  {
    var n, o := |g.nodes|, Others(g, j);
    var a, b := Select(n, Delegated(g, j)), Select(n, o);
    forall k | Feeds(g, k, b[p]) ensures k in Elements(a) + Elements(b[..p]) {
      FeedsLater(g, k, b[p]);
      if k in o {
        SelectedBefore(n, o, p, k);
      }
    }
    FedIsReady(g, Elements(a) + Elements(b[..p]), b[p]);
  }

  lemma AllSelected(n: nat, d: set<int>, o: set<int>)
    requires o == set k | 0 <= k < n && k !in d
    ensures var s := Select(n, d) + Select(n, o);
            && (forall p :: 0 <= p < |s| ==> 0 <= s[p] < n)
            && (forall p, q :: 0 <= p < q < |s| ==> s[p] != s[q])
            && (forall k :: 0 <= k < n ==> k in s)
  {
    var a, b := Select(n, d), Select(n, o);
    forall k | 0 <= k < n ensures k in a + b {
      assert k in d || k in o;
    }
  }

  lemma OneAfterTheOther(g: Graph, a: seq<int>, b: seq<int>)
    requires forall p :: 0 <= p < |a| ==> ReadyAt(g, a, p)
    requires forall p :: 0 <= p < |b| ==> 0 <= b[p] < |g.nodes| && Ready(g, Elements(a) + Elements(b[..p]), b[p])
    ensures forall p :: 0 <= p < |a + b| ==> ReadyAt(g, a + b, p)
  {
    var s := a + b;
    forall p | 0 <= p < |s| ensures ReadyAt(g, s, p) {
      if p < |a| {
        assert ReadyAt(g, a, p) && s[..p] == a[..p];
      } else {
        assert s[..p] == a + b[..p - |a|];
        assert Elements(s[..p]) == Elements(a) + Elements(b[..p - |a|]);
      }
    }
  }

  lemma BothRun(g: Graph, j: int)
    requires Plain(g) && 0 < j < |g.nodes|
    ensures WholeSchedule(g, Select(|g.nodes|, Delegated(g, j)) + Select(|g.nodes|, Others(g, j)))
  {
    var a, b := Select(|g.nodes|, Delegated(g, j)), Select(|g.nodes|, Others(g, j));
    forall p | 0 <= p < |a| ensures ReadyAt(g, a, p) {
      DelegatedReady(g, j, p);
    }
    forall p | 0 <= p < |b| ensures Ready(g, Elements(a) + Elements(b[..p]), b[p]) {
      OtherReady(g, j, p);
    }
    OneAfterTheOther(g, a, b);
    AllSelected(|g.nodes|, Delegated(g, j), Others(g, j));
  }

  /** Two subsets, one for each type. */
  lemma TwoTypes(g: Graph, types: seq<NodeType>, a: seq<int>, b: seq<int>)
    requires |types| == |g.nodes| && WholeSchedule(g, a + b) && a != [] && b != []
    requires OfType(types, a, Partition) && OfType(types, b, NonPartition)
    ensures Flatten([a, b]) == a + b && Greedy(g, types, [a, b], [Partition, NonPartition])
  {
    var order, kinds := [a, b], [Partition, NonPartition];
    FlattenTwo(order, a, b);
    assert order[..2] == order;
    forall k | 0 <= k < |g.nodes| ensures k in a || k in b {
      assert k in Elements(a + b);
    }
    assert GreedyAt(g, types, order, kinds, 0);
    assert GreedyAt(g, types, order, kinds, 1);
  }

  /** The types when these nodes are delegated, and the partition that they make. */
  ghost function TypesFor(g: Graph, j: int): seq<NodeType> {
    seq(|g.nodes|, k requires 0 <= k < |g.nodes| => if k in Delegated(g, j) then Partition else NonPartition)
  }

  ghost function OrderFor(g: Graph, j: int): seq<seq<int>> {
    [Select(|g.nodes|, Delegated(g, j)), Select(|g.nodes|, Others(g, j))]
  }

  lemma SelectedFirst(g: Graph, j: int)
    requires 0 < j < |g.nodes|
    ensures var a := Select(|g.nodes|, Delegated(g, j)); a != [] && a[0] == 0
  {
    var a := Select(|g.nodes|, Delegated(g, j));
    assert 0 in a;
    var p :| 0 <= p < |a| && a[p] == 0;
  }

  lemma SelectedOrNot(g: Graph, j: int, k: int)
    ensures k in Select(|g.nodes|, Delegated(g, j)) <==> k in Delegated(g, j)
    ensures k in Select(|g.nodes|, Others(g, j)) <==> 0 <= k < |g.nodes| && k !in Delegated(g, j)
  {
  }

  lemma DelegatedReadyInTurn(g: Graph, j: int, p: nat)
    requires Plain(g) && 0 < j < |g.nodes| && p < |Select(|g.nodes|, Delegated(g, j))|
    ensures var a := Select(|g.nodes|, Delegated(g, j)); Ready(g, {} + Elements(a[..p]), a[p])
  {
    var a := Select(|g.nodes|, Delegated(g, j));
    DelegatedReady(g, j, p);
    assert {} + Elements(a[..p]) == Elements(a[..p]);
  }

  lemma DelegatedTakeType(g: Graph, j: int)
    requires Plain(g) && 0 < j < |g.nodes|
    ensures TakesType(g, TypesFor(g, j), {}, Select(|g.nodes|, Delegated(g, j)), Partition)
  {
    var a := Select(|g.nodes|, Delegated(g, j));
    SelectedFirst(g, j);
    forall p | 0 <= p < |a| ensures Ready(g, {} + Elements(a[..p]), a[p]) && TypesFor(g, j)[a[p]] == Partition {
      DelegatedReadyInTurn(g, j, p);
      SelectedOrNot(g, j, a[p]);
    }
    forall k | 0 <= k < |g.nodes| && k !in a ensures k > 0 && TypesFor(g, j)[k] == NonPartition {
      SelectedOrNot(g, j, k);
    }
  }

  lemma OthersTakeType(g: Graph, j: int)
    requires Plain(g) && 0 < j < |g.nodes|
    ensures TakesType(g, TypesFor(g, j), Elements(Select(|g.nodes|, Delegated(g, j))),
                      Select(|g.nodes|, Others(g, j)), NonPartition)
  {
    var a, b := Select(|g.nodes|, Delegated(g, j)), Select(|g.nodes|, Others(g, j));
    forall p | 0 <= p < |b| ensures Ready(g, Elements(a) + Elements(b[..p]), b[p]) {
      OtherReady(g, j, p);
    }
    forall k | k in b || (0 <= k < |g.nodes| && k !in a) ensures k in b && k !in a {
      SelectedOrNot(g, j, k);
    }
    forall p | 0 <= p < |b| ensures b[p] !in Elements(a) && TypesFor(g, j)[b[p]] == NonPartition {
      SelectedOrNot(g, j, b[p]);
    }
  }

  /** Each of the two lists its nodes in the order of the plan, as the partitioner does. */
  lemma DelegationIsInTurn(g: Graph, j: int)
    requires Plain(g) && 0 < j < |g.nodes|
    ensures AllInTurn(g, TypesFor(g, j), OrderFor(g, j))
  {
    DelegatedTakeType(g, j);
    OthersTakeType(g, j);
    BothInTurn(g, TypesFor(g, j), Select(|g.nodes|, Delegated(g, j)), Partition,
               Select(|g.nodes|, Others(g, j)), NonPartition);
  }

  lemma DelegationTakesAll(g: Graph, j: int)
    requires Plain(g) && 0 < j < |g.nodes| && Select(|g.nodes|, Others(g, j)) != []
    ensures Greedy(g, TypesFor(g, j), OrderFor(g, j), [Partition, NonPartition])
    ensures Covers(g, Elements(Flatten(OrderFor(g, j))))
  {
    BothRun(g, j);
    SelectedFirst(g, j);
    TwoTypes(g, TypesFor(g, j), Select(|g.nodes|, Delegated(g, j)), Select(|g.nodes|, Others(g, j)));
  }

  /** There is a partition of these types. */
  lemma DelegationIsGreedy(g: Graph, j: int)
    requires Plain(g) && 0 < j < |g.nodes| && Select(|g.nodes|, Others(g, j)) != []
    ensures Partitioned(g, TypesFor(g, j), OrderFor(g, j), [Partition, NonPartition])
  {
    DelegationTakesAll(g, j);
    DelegationIsInTurn(g, j);
    assert Real(TypesFor(g, j));
  }

  /** The first subset of any partition of these types is what is delegated. */
  lemma {:induction false} DelegatedIsFirst(g: Graph, j: int, order: seq<seq<int>>, kinds: seq<NodeType>, k: int)
    requires Plain(g) && 0 < j < |g.nodes| && Partitioned(g, TypesFor(g, j), order, kinds)
    requires order != [] && kinds[0] == Partition && k in Delegated(g, j)
    ensures k in order[0]
    decreases k
  {
    forall m | Feeds(g, m, k) ensures m in order[0] {
      NeedsOfDelegated(g, j, m, k);
      FeedsLater(g, m, k);
      DelegatedIsFirst(g, j, order, kinds, m);
    }
    FedIsReady(g, Elements(order[0]), k);
    assert GreedyAt(g, TypesFor(g, j), order, kinds, 0);
    FirstOfFlatten(order);
  }

  lemma FirstOfFlatten(order: seq<seq<int>>)
    requires order != []
    ensures order[0] <= Flatten(order) && Done(order, 1) == Elements(order[0])
  {
    assert order[..0] == [] && [] + order[0] == order[0];
    DoneNext(order, 0);
    assert Flatten(order[..1]) == order[0];
    FlattenSplits(order, 1);
  }

  lemma FirstSubsetDelegated(g: Graph, j: int, order: seq<seq<int>>, kinds: seq<NodeType>)
    requires 0 < j < |g.nodes| && UsesEarlierNodes(g) && Partitioned(g, TypesFor(g, j), order, kinds)
    ensures order != [] && order[0] != [] && kinds[0] == Partition
    ensures order[0] <= Flatten(order)
  {
    StartsPlan(g, TypesFor(g, j), order, kinds);
    assert GreedyAt(g, TypesFor(g, j), order, kinds, 0);
    assert order[0][0] == 0 && 0 in Delegated(g, j);
  }

  /** Whatever the partitioner makes when they are delegated runs node `j` before the nodes that it
      does not need. */
  lemma DelegationReorders(g: Graph, i: int, j: int, order: seq<seq<int>>, kinds: seq<NodeType>)
    requires Plain(g) && 0 < i < j < |g.nodes| && !Linked(g, i, j)
    requires Partitioned(g, TypesFor(g, j), order, kinds)
    ensures Precedes(Flatten(order), j, i)
  {
    var s := Flatten(order);
    FirstSubsetDelegated(g, j, order, kinds);
    DelegatedIsFirst(g, j, order, kinds, j);
    var p :| 0 <= p < |order[0]| && order[0][p] == j;
    var q := PlaceOf(g, s, i);
    assert q >= |order[0]| by {
      assert GreedyAt(g, TypesFor(g, j), order, kinds, 0);
      assert i !in Delegated(g, j);
    }
    assert s[p] == j && s[q] == i;
  }

  lemma UnlinkedUpdatesAreReordered(g: Graph, u: Updates, i: int, j: int, v: int, order: seq<seq<int>>,
                                    kinds: seq<NodeType>)
    requires Plain(g) && 0 < i < j && Conflict(g, u, i, j, v) && !Linked(g, i, j)
    requires Partitioned(g, TypesFor(g, j), order, kinds)
    ensures !OrderedAlike(g, u, PlanOrder(g), Flatten(order))
  {
    DelegationReorders(g, i, j, order, kinds);
    PlanPrecedes(g, i, j);
    OneOrTheOther(g, Flatten(order), i, j);
  }

  /** The delegate that reorders nodes `i` and `j` leaves node `i` over, so that there is a partition. */
  lemma DelegationExists(g: Graph, i: int, j: int)
    requires Plain(g) && 0 < i < j < |g.nodes| && !Linked(g, i, j)
    ensures Partitioned(g, TypesFor(g, j), OrderFor(g, j), [Partition, NonPartition])
  {
    assert i in Select(|g.nodes|, Others(g, j));
    DelegationIsGreedy(g, j);
  }

  lemma SomePartitionReorders(g: Graph, u: Updates)
    requires Plain(g) && !ConflictsAreLinked(g, u)
    ensures exists types, order, kinds ::
              Partitioned(g, types, order, kinds) && !OrderedAlike(g, u, PlanOrder(g), Flatten(order))
  {
    var i, j, v :| 0 < i < j && Conflict(g, u, i, j, v) && !Linked(g, i, j);
    DelegationExists(g, i, j);
    UnlinkedUpdatesAreReordered(g, u, i, j, v, OrderFor(g, j), [Partition, NonPartition]);
  }

  /** Partitions keep the order of updates, whatever goes to the delegate, if and only if conflicting
      nodes are linked. */
  lemma UpdatesKeepOrderIff(g: Graph, u: Updates)
    requires Plain(g)
    ensures (forall types, order, kinds ::
               Partitioned(g, types, order, kinds) ==> OrderedAlike(g, u, PlanOrder(g), Flatten(order)))
       <==> ConflictsAreLinked(g, u)
  {
    if ConflictsAreLinked(g, u) {
      forall types, order, kinds | Partitioned(g, types, order, kinds)
        ensures OrderedAlike(g, u, PlanOrder(g), Flatten(order))
      {
        LinkedIsEnough(g, u, types, order, kinds);
      }
    } else {
      SomePartitionReorders(g, u);
    }
  }

  /** So then running the subsets in order computes what the plan computes, for all kernels. */
  lemma LinkedUpdatesPreserveMeaning<V(!new)>(g: Graph, types: seq<NodeType>, order: seq<seq<int>>,
                                              kinds: seq<NodeType>, k: Kernels<V>, vals: Values<V>)
    requires Plain(g) && ConflictsAreLinked(g, k.updates) && Partitioned(g, types, order, kinds)
    ensures SameRuns(g, k, PlanOrder(g), Flatten(order), vals)
  {
    LinkedIsEnough(g, k.updates, types, order, kinds);
    PlanOrderIsSchedule(g);
    SchedulesAgree(g, k, PlanOrder(g), Flatten(order), vals);
  }

  /** Otherwise there are nodes to delegate so that, for kernels that remember, whatever the partitioner
      makes of them computes something else. */
  lemma UnlinkedUpdatesChangeMeaning(g: Graph, u: Updates, i: int, j: int, v: int, order: seq<seq<int>>,
                                     kinds: seq<NodeType>)
    requires Plain(g) && UpdatesInputs(g, u) && 0 < i < j && Conflict(g, u, i, j, v) && !Linked(g, i, j)
    requires Partitioned(g, TypesFor(g, j), order, kinds)
    ensures !SameRuns(g, Remembering(u), PlanOrder(g), Flatten(order), Given())
  {
    UnlinkedUpdatesAreReordered(g, u, i, j, v, order, kinds);
    PlanOrderIsSchedule(g);
    SameRunsIffOrderedAlike(g, u, PlanOrder(g), Flatten(order));
  }

  /** And for kernels that remember, whatever goes to the delegate, only then. */
  lemma PartitioningPreservesMeaningIff(g: Graph, u: Updates)
    requires Plain(g) && UpdatesInputs(g, u)
    ensures (forall types, order, kinds :: Partitioned(g, types, order, kinds) ==>
               SameRuns(g, Remembering(u), PlanOrder(g), Flatten(order), Given()))
       <==> ConflictsAreLinked(g, u)
  {
    PlanOrderIsSchedule(g);
    forall types, order, kinds | Partitioned(g, types, order, kinds)
      ensures SameRuns(g, Remembering(u), PlanOrder(g), Flatten(order), Given())
         <==> OrderedAlike(g, u, PlanOrder(g), Flatten(order))
    {
      SameRunsIffOrderedAlike(g, u, PlanOrder(g), Flatten(order));
    }
    UpdatesKeepOrderIff(g, u);
  }

  // ----- Within a subset -----------------------------------------------------------------------------------

  lemma PrecedesInPart(front: seq<int>, back: seq<int>, s: seq<int>, i: int, j: int)
    requires front + back <= s && j in back && (i in front || Precedes(back, i, j))
    ensures Precedes(s, i, j)
  {
    if i in front {
      var p :| 0 <= p < |front| && front[p] == i;
      var q :| 0 <= q < |back| && back[q] == j;
      assert (front + back)[p] == i && (front + back)[|front| + q] == j;
      assert s[p] == i && s[|front| + q] == j;
    } else {
      var p, q :| 0 <= p < q < |back| && back[p] == i && back[q] == j;
      assert (front + back)[|front| + p] == i && (front + back)[|front| + q] == j;
      assert s[|front| + p] == i && s[|front| + q] == j;
    }
  }

  /** Whatever is listed in an earlier subset, or earlier in the same one, comes earlier. */
  lemma ListedEarlier(order: seq<seq<int>>, e: int, f: int, i: int, j: int)
    requires 0 <= e <= f < |order| && i in order[e] && j in order[f]
    requires e == f ==> Precedes(order[e], i, j)
    ensures Precedes(Flatten(order), i, j)
  {
    DoneNext(order, f);
    FlattenSplits(order, f + 1);
    if e < f {
      FlattenMembers(order[..f], i);
      assert order[..f][e] == order[e];
    }
    PrecedesInPart(Flatten(order[..f]), order[f], Flatten(order), i, j);
  }

  lemma KeptWithin(g: Graph, types: seq<NodeType>, order: seq<seq<int>>, kinds: seq<NodeType>, e: int, i: int, j: int)
    requires Plain(g) && Partitioned(g, types, order, kinds)
    requires 0 <= e < |order| && i in order[e] && j in order[e] && i < j
    ensures Precedes(order[e], i, j)
  {
    SubsetsAscend(g, types, order);
    var p :| 0 <= p < |order[e]| && order[e][p] == i;
    var q :| 0 <= q < |order[e]| && order[e][q] == j;
    assert p < q;
  }

  /** Conflicting nodes are in subsets that come in the order of the nodes, or in the same one. */
  ghost predicate ConflictsSpread(g: Graph, u: Updates, order: seq<seq<int>>) {
    forall i, j, v, e, f ::
      i < j && Conflict(g, u, i, j, v) && 0 <= e < |order| && 0 <= f < |order| && i in order[e] && j in order[f] ==>
        e <= f
  }

  lemma SubsetOf(g: Graph, order: seq<seq<int>>, i: int) returns (e: int)
    requires Covers(g, Elements(Flatten(order))) && 0 <= i < |g.nodes|
    ensures 0 <= e < |order| && i in order[e]
  {
    FlattenMembers(order, i);
    assert i in Elements(Flatten(order));
    e :| 0 <= e < |order| && i in order[e];
  }

  /** Updates are never reordered within a subset, only by subsets. */
  lemma ReorderedOnlyAcross(g: Graph, u: Updates, types: seq<NodeType>, order: seq<seq<int>>, kinds: seq<NodeType>)
    requires Plain(g) && Partitioned(g, types, order, kinds)
    ensures OrderedAlike(g, u, PlanOrder(g), Flatten(order)) <==> ConflictsSpread(g, u, order)
  {
    if OrderedAlike(g, u, PlanOrder(g), Flatten(order)) {
      forall i, j, v, e, f | i < j && Conflict(g, u, i, j, v) && 0 <= e < |order| && 0 <= f < |order|
                             && i in order[e] && j in order[f]
        ensures e <= f
      {
        PlanPrecedes(g, i, j);
        OneOrTheOther(g, Flatten(order), i, j);
        if f < e {
          ListedEarlier(order, f, e, j, i);
        }
      }
    }
    if ConflictsSpread(g, u, order) {
      forall i, j, v | Conflict(g, u, i, j, v) && Precedes(PlanOrder(g), i, j) ensures Precedes(Flatten(order), i, j) {
        PlanPrecedes(g, i, j);
        var e := SubsetOf(g, order, i);
        var f := SubsetOf(g, order, j);
        if e == f {
          KeptWithin(g, types, order, kinds, e, i, j);
        }
        ListedEarlier(order, e, f, i, j);
      }
    }
  }

  // ----- All or nothing ------------------------------------------------------------------------------------

  lemma PlanInTurn(g: Graph, types: seq<NodeType>, t: NodeType)
    requires Plain(g) && g.nodes != [] && types == seq(|g.nodes|, _ => t)
    ensures TakesType(g, types, {}, PlanOrder(g), t)
  {
    var s := PlanOrder(g);
    PlanOrderIsSchedule(g);
    forall p | 0 <= p < |s| ensures Ready(g, {} + Elements(s[..p]), s[p]) {
      assert ReadyAt(g, s, p) && {} + Elements(s[..p]) == Elements(s[..p]);
    }
    forall k | 0 <= k < |g.nodes| ensures k in s {
      assert s[k] == k;
    }
  }

  lemma OneSubset(s: seq<int>)
    ensures Done([s], 0) == {} && Done([s], 1) == Elements(s) && Flatten([s]) == s
  {
    assert [s][..0] == [] && [] + s == s && [s][..1] == [s];
  }

  lemma OneInTurn(g: Graph, types: seq<NodeType>, s: seq<int>, t: NodeType)
    requires |types| == |g.nodes| && TakesType(g, types, {}, s, t)
    ensures AllInTurn(g, types, [s])
  {
    TakingTypeIsInTurn(g, types, {}, s, t, |s|);
    assert s[..|s|] == s;
    OneSubset(s);
  }

  lemma OneIsGreedy(g: Graph, types: seq<NodeType>, s: seq<int>, t: NodeType)
    requires |types| == |g.nodes| && OfType(types, s, t) && s != [] && WholeSchedule(g, s)
    ensures Greedy(g, types, [s], [t]) && Covers(g, Elements(Flatten([s])))
  {
    OneSubset(s);
    assert Saturated(g, types, Elements(s), t);
    assert GreedyAt(g, types, [s], [t], 0);
  }

  lemma WholePlan(g: Graph, types: seq<NodeType>, t: NodeType)
    requires Plain(g) && g.nodes != [] && types == seq(|g.nodes|, _ => t) && t != Unexplored
    ensures Partitioned(g, types, [PlanOrder(g)], [t])
  {
    PlanOrderIsSchedule(g);
    PlanInTurn(g, types, t);
    OneInTurn(g, types, PlanOrder(g), t);
    OneIsGreedy(g, types, PlanOrder(g), t);
  }

  /** When the delegate takes every node, or none, there is one subset, and it is the plan as it stands:
      nothing changes for any kernels, whatever they update. */
  lemma OneTypeKeepsThePlan<V(!new)>(g: Graph, types: seq<NodeType>, order: seq<seq<int>>, kinds: seq<NodeType>,
                                     t: NodeType, k: Kernels<V>, vals: Values<V>)
    requires Plain(g) && g.nodes != [] && Partitioned(g, types, order, kinds) && types == seq(|g.nodes|, _ => t)
    ensures order == [PlanOrder(g)] && kinds == [t] && SameRuns(g, k, PlanOrder(g), Flatten(order), vals)
  {
    assert types[0] == t;
    WholePlan(g, types, t);
    PartitionIsDetermined(g, types, order, kinds, [PlanOrder(g)], [t]);
    OneSubset(PlanOrder(g));
    PlanOrderIsSchedule(g);
    SchedulesAgree(g, k, PlanOrder(g), PlanOrder(g), vals);
  }
}
