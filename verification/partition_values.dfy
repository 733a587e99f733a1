/** Running subset by subset computes what the original plan computes - exactly as far as the order
    of nodes that update a common variable is kept. */
module PartitionValues {
  import opened Basics
  import opened GraphInfo
  import opened Schedules
  import opened PartitionOrder

  /** Tensor values; the entry of an optional tensor stands for "not given". */
  type Values<!V> = int -> V

  /** `compute(i, t, inputs)` is what node `i` computes for a tensor `t` that it writes: an output, or
      a graph variable that `updates(i, t)` says it updates. */
  datatype Kernels<!V> = Kernels(updates: (int, int) -> bool, compute: (int, int, seq<V>) -> V)

  type Updates = (int, int) -> bool

  predicate Writes(g: Graph, u: Updates, i: int, t: int)
    requires 0 <= i < |g.nodes|
  {
    g.Produces(i, t) || (t in g.variables && u(i, t))
  }

  predicate Touches(g: Graph, u: Updates, i: int, t: int)
    requires 0 <= i < |g.nodes|
  {
    g.Consumes(i, t) || Writes(g, u, i, t)
  }

  function InputValues<V>(g: Graph, i: int, vals: Values<V>): seq<V>
    requires 0 <= i < |g.nodes|
  {
    seq(|g.nodes[i].inputs|, j requires 0 <= j < |g.nodes[i].inputs| => vals(g.nodes[i].inputs[j]))
  }

  function RunNode<V>(g: Graph, k: Kernels<V>, i: int, vals: Values<V>): Values<V>
    requires 0 <= i < |g.nodes|
  {
    t => if Writes(g, k.updates, i, t) then k.compute(i, t, InputValues(g, i, vals)) else vals(t)
  }

  ghost predicate NodesOf(g: Graph, s: seq<int>) {
    forall p :: 0 <= p < |s| ==> 0 <= s[p] < |g.nodes|
  }

  /** The values after the first `n` nodes of an order. */
  function RunNodes<V>(g: Graph, k: Kernels<V>, s: seq<int>, n: nat, vals: Values<V>): Values<V>
    requires NodesOf(g, s) && n <= |s|
  {
    if n == 0 then vals else RunNode(g, k, s[n - 1], RunNodes(g, k, s, n - 1, vals))
  }

  // ----- Orders -------------------------------------------------------------------------------------

  /** A dependency order of the whole plan. */
  ghost predicate WholeSchedule(g: Graph, s: seq<int>) {
    Schedule(g, s) && Covers(g, Elements(s))
  }

  ghost predicate Precedes(s: seq<int>, i: int, j: int) {
    exists p, q :: 0 <= p < q < |s| && s[p] == i && s[q] == j
  }

  /** Two nodes touch a variable, and one of them writes it. */
  ghost predicate Conflict(g: Graph, u: Updates, i: int, j: int, v: int) {
    && 0 <= i < |g.nodes| && 0 <= j < |g.nodes| && v in g.variables
    && Touches(g, u, i, v) && Touches(g, u, j, v) && (Writes(g, u, i, v) || Writes(g, u, j, v))
  }

  /** Such nodes come in the same order in `b` as in `a`. */
  ghost predicate OrderedAlike(g: Graph, u: Updates, a: seq<int>, b: seq<int>) {
    forall i, j, v :: Conflict(g, u, i, j, v) && Precedes(a, i, j) ==> Precedes(b, i, j)
  }

  lemma PlaceOf(g: Graph, s: seq<int>, i: int) returns (p: nat)
    requires WholeSchedule(g, s) && 0 <= i < |g.nodes|
    ensures p < |s| && s[p] == i
  {
    assert i in Elements(s);
    p :| 0 <= p < |s| && s[p] == i;
  }

  lemma OneOrTheOther(g: Graph, s: seq<int>, i: int, j: int)
    requires WholeSchedule(g, s) && 0 <= i < |g.nodes| && 0 <= j < |g.nodes| && i != j
    ensures Precedes(s, i, j) <==> !Precedes(s, j, i)
  {
    var p := PlaceOf(g, s, i);
    var q := PlaceOf(g, s, j);
    assert p < q ==> Precedes(s, i, j);
    assert q < p ==> Precedes(s, j, i);
  }

  lemma AlikeIsSymmetric(g: Graph, u: Updates, a: seq<int>, b: seq<int>)
    requires WholeSchedule(g, a) && WholeSchedule(g, b) && OrderedAlike(g, u, a, b)
    ensures OrderedAlike(g, u, b, a)
  {
    forall i, j, v | Conflict(g, u, i, j, v) && Precedes(b, i, j) ensures Precedes(a, i, j) {
      assert Conflict(g, u, j, i, v);
      assert i != j;
      OneOrTheOther(g, a, i, j);
      OneOrTheOther(g, b, i, j);
    }
  }

  /** Two nodes touch a tensor of any kind, one of them writing it: dependency orders order them alike
      if the tensor is no variable. */
  lemma TensorOrder(g: Graph, u: Updates, a: seq<int>, b: seq<int>, i: int, j: int, t: int)
    requires g.InRange() && SingleProducer(g) && WholeSchedule(g, a) && WholeSchedule(g, b) && OrderedAlike(g, u, a, b)
    requires 0 <= i < |g.nodes| && 0 <= j < |g.nodes| && Touches(g, u, i, t) && Touches(g, u, j, t)
    requires (Writes(g, u, i, t) || Writes(g, u, j, t)) && Precedes(a, i, j)
    ensures Precedes(b, i, j)
  {
    if t in g.variables {
      assert Conflict(g, u, i, j, t);
    } else if g.Produces(i, t) {
      assert i != j;
      assert !g.Produces(j, t);
      ProducerFirst(g, b, i, j, t);
    } else {
      ProducerFirst(g, a, j, i, t);
      assert i != j;
      OneOrTheOther(g, a, i, j);
    }
  }

  lemma ProducerFirst(g: Graph, s: seq<int>, i: int, j: int, t: int)
    requires g.InRange() && SingleProducer(g) && WholeSchedule(g, s)
    requires 0 <= i < |g.nodes| && 0 <= j < |g.nodes| && g.Produces(i, t) && g.Consumes(j, t)
    ensures Precedes(s, i, j)
  {
    assert g.NodeInRange(g.nodes[i]);
    var q := PlaceOf(g, s, j);
    assert ReadyAt(g, s, q) && HasProducer(g, t);
    var k :| k in Elements(s[..q]) && 0 <= k < |g.nodes| && g.Produces(k, t);
    var p :| 0 <= p < q && s[..q][p] == k;
    assert k == i;
  }

  // ----- What a node sees ------------------------------------------------------------------------------

  /** The last of the first `n` nodes of an order that writes `t`, or -1. */
  function LastWriter(g: Graph, u: Updates, s: seq<int>, n: nat, t: int): (w: int)
    requires NodesOf(g, s) && n <= |s|
    ensures w == -1 || (0 <= w < n && Writes(g, u, s[w], t))
    ensures forall p :: w < p < n ==> !Writes(g, u, s[p], t)
  {
    if n == 0 then -1 else if Writes(g, u, s[n - 1], t) then n - 1 else LastWriter(g, u, s, n - 1, t)
  }

  lemma {:induction false} ValueOf<V>(g: Graph, k: Kernels<V>, s: seq<int>, n: nat, vals: Values<V>, t: int)
    requires NodesOf(g, s) && n <= |s|
    ensures var w := LastWriter(g, k.updates, s, n, t);
            RunNodes(g, k, s, n, vals)(t)
            == if w == -1 then vals(t) else k.compute(s[w], t, InputValues(g, s[w], RunNodes(g, k, s, w, vals)))
  {
    if n > 0 && !Writes(g, k.updates, s[n - 1], t) {
      ValueOf(g, k, s, n - 1, vals, t);
    }
  }

  /** The writers of `t` among the first `p` nodes of `a` are among the first `q` nodes of `b`. */
  ghost predicate WritersIn(g: Graph, u: Updates, a: seq<int>, p: nat, b: seq<int>, q: nat, t: int)
    requires NodesOf(g, a) && p <= |a| && q <= |b|
  {
    forall w :: 0 <= w < p && Writes(g, u, a[w], t) ==> a[w] in b[..q]
  }

  ghost predicate BothOrders(g: Graph, u: Updates, a: seq<int>, b: seq<int>) {
    && g.InRange() && SingleProducer(g) && WholeSchedule(g, a) && WholeSchedule(g, b)
    && OrderedAlike(g, u, a, b) && OrderedAlike(g, u, b, a)
  }

  /** Same writers, same last writer. */
  lemma SameLastWriter(g: Graph, u: Updates, a: seq<int>, p: nat, b: seq<int>, q: nat, t: int)
    requires BothOrders(g, u, a, b) && p <= |a| && q <= |b|
    requires WritersIn(g, u, a, p, b, q, t) && WritersIn(g, u, b, q, a, p, t)
    ensures var w, x := LastWriter(g, u, a, p, t), LastWriter(g, u, b, q, t);
            (w == -1 <==> x == -1) && (w != -1 ==> a[w] == b[x])
  {
    var w, x := LastWriter(g, u, a, p, t), LastWriter(g, u, b, q, t);
    if w != -1 {
      assert a[w] in b[..q];
      var y :| 0 <= y < q && b[y] == a[w];
      assert x != -1 && b[x] in a[..p];
      var z :| 0 <= z < p && a[z] == b[x];
      if a[w] != b[x] {
        assert z < w && Precedes(a, b[x], a[w]);
        TensorOrder(g, u, a, b, b[x], a[w], t);
      }
    }
    assert x != -1 ==> b[x] in a[..p];
  }

  /** The writers before a node that reads `t` are the same in both orders. */
  lemma WritersBefore(g: Graph, u: Updates, a: seq<int>, p: nat, b: seq<int>, q: nat, t: int)
    requires BothOrders(g, u, a, b) && p < |a| && q < |b| && a[p] == b[q] && g.Consumes(a[p], t)
    ensures WritersIn(g, u, a, p, b, q, t)
  {
    forall w | 0 <= w < p && Writes(g, u, a[w], t) ensures a[w] in b[..q] {
      assert Precedes(a, a[w], a[p]);
      TensorOrder(g, u, a, b, a[w], a[p], t);
      var x, y :| 0 <= x < y < |b| && b[x] == a[w] && b[y] == a[p];
      assert y == q && b[..q][x] == a[w];
    }
  }

  lemma {:induction false} SameValue<V>(g: Graph, k: Kernels<V>, a: seq<int>, p: nat, b: seq<int>, q: nat,
                                        vals: Values<V>, t: int)
    requires BothOrders(g, k.updates, a, b) && p <= |a| && q <= |b|
    requires WritersIn(g, k.updates, a, p, b, q, t) && WritersIn(g, k.updates, b, q, a, p, t)
    ensures RunNodes(g, k, a, p, vals)(t) == RunNodes(g, k, b, q, vals)(t)
    decreases p, 0
  {
    ValueOf(g, k, a, p, vals, t);
    ValueOf(g, k, b, q, vals, t);
    SameLastWriter(g, k.updates, a, p, b, q, t);
    var w, x := LastWriter(g, k.updates, a, p, t), LastWriter(g, k.updates, b, q, t);
    if w != -1 {
      SameInputs(g, k, a, w, b, x, vals);
    }
  }

  lemma {:induction false} SameInputs<V>(g: Graph, k: Kernels<V>, a: seq<int>, p: nat, b: seq<int>, q: nat,
                                         vals: Values<V>)
    requires BothOrders(g, k.updates, a, b) && p < |a| && q < |b| && a[p] == b[q]
    ensures InputValues(g, a[p], RunNodes(g, k, a, p, vals)) == InputValues(g, b[q], RunNodes(g, k, b, q, vals))
    decreases p, 1
  {
    var inputs := g.nodes[a[p]].inputs;
    forall j | 0 <= j < |inputs|
      ensures RunNodes(g, k, a, p, vals)(inputs[j]) == RunNodes(g, k, b, q, vals)(inputs[j])
    {
      assert g.Consumes(a[p], inputs[j]);
      WritersBefore(g, k.updates, a, p, b, q, inputs[j]);
      WritersBefore(g, k.updates, b, q, a, p, inputs[j]);
      SameValue(g, k, a, p, b, q, vals, inputs[j]);
    }
  }

  /** Every node sees the same inputs in both orders, and every tensor ends with the same value. */
  ghost predicate SameRuns<V(!new)>(g: Graph, k: Kernels<V>, a: seq<int>, b: seq<int>, vals: Values<V>)
    requires NodesOf(g, a) && NodesOf(g, b)
  {
    && (forall p, q :: 0 <= p < |a| && 0 <= q < |b| && a[p] == b[q] ==> SeesTheSame(g, k, a, p, b, q, vals))
    && (forall t :: RunNodes(g, k, a, |a|, vals)(t) == RunNodes(g, k, b, |b|, vals)(t))
  }

  ghost predicate SeesTheSame<V(!new)>(g: Graph, k: Kernels<V>, a: seq<int>, p: int, b: seq<int>, q: int,
                                       vals: Values<V>)
    requires NodesOf(g, a) && NodesOf(g, b) && 0 <= p < |a| && 0 <= q < |b|
  {
    InputValues(g, a[p], RunNodes(g, k, a, p, vals)) == InputValues(g, b[q], RunNodes(g, k, b, q, vals))
  }

  /** Two dependency orders that order updates of variables alike compute the same. */
  lemma SchedulesAgree<V(!new)>(g: Graph, k: Kernels<V>, a: seq<int>, b: seq<int>, vals: Values<V>)
    requires g.InRange() && SingleProducer(g) && WholeSchedule(g, a) && WholeSchedule(g, b)
    requires OrderedAlike(g, k.updates, a, b)
    ensures SameRuns(g, k, a, b, vals)
  {
    AlikeIsSymmetric(g, k.updates, a, b);
    forall p, q | 0 <= p < |a| && 0 <= q < |b| && a[p] == b[q] ensures SeesTheSame(g, k, a, p, b, q, vals) {
      SameInputs(g, k, a, p, b, q, vals);
    }
    forall t ensures RunNodes(g, k, a, |a|, vals)(t) == RunNodes(g, k, b, |b|, vals)(t) {
      AllWriters(g, k.updates, a, b, t);
      AllWriters(g, k.updates, b, a, t);
      SameValue(g, k, a, |a|, b, |b|, vals, t);
    }
  }

  lemma AllWriters(g: Graph, u: Updates, a: seq<int>, b: seq<int>, t: int)
    requires WholeSchedule(g, a) && WholeSchedule(g, b)
    ensures WritersIn(g, u, a, |a|, b, |b|, t)
  {
    forall w | 0 <= w < |a| ensures a[w] in b[..|b|] {
      assert a[w] in Elements(b) && b[..|b|] == b;
    }
  }

  // ----- And only those ----------------------------------------------------------------------------------

  /** Values that remember how they were computed. */
  datatype Term = Start(t: int) | Computed(node: int, t: int, args: seq<Term>)

  function Remembering(u: Updates): Kernels<Term> {
    Kernels(u, (i, t, args) => Computed(i, t, args))
  }

  function Given(): Values<Term> { t => Start(t) }

  /** A node that updates a variable has it among its inputs, and no node outputs a variable. */
  ghost predicate UpdatesInputs(g: Graph, u: Updates) {
    forall i, v :: 0 <= i < |g.nodes| && v in g.variables ==> !g.Produces(i, v) && (u(i, v) ==> g.Consumes(i, v))
  }

  function IndexOf(s: seq<int>, v: int): (k: nat)
    requires v in s
    ensures k < |s| && s[k] == v
  {
    if s[0] == v then 0 else 1 + IndexOf(s[1..], v)
  }

  /** Does a variable's value go back to an update by node `i`? */
  predicate Mentions(g: Graph, v: int, i: int, term: Term) {
    match term
    case Start(_) => false
    case Computed(node, _, args) =>
      node == i ||
      (0 <= node < |g.nodes| && v in g.nodes[node].inputs && |args| == |g.nodes[node].inputs|
       && Mentions(g, v, i, args[IndexOf(g.nodes[node].inputs, v)]))
  }

  /** A variable remembers exactly the nodes that have updated it. */
  lemma {:induction false} Remembered(g: Graph, u: Updates, s: seq<int>, n: nat, v: int, i: int)
    requires UpdatesInputs(g, u) && NodesOf(g, s) && n <= |s| && v in g.variables
    ensures Mentions(g, v, i, RunNodes(g, Remembering(u), s, n, Given())(v))
       <==> exists p :: 0 <= p < n && s[p] == i && Writes(g, u, s[p], v)
  {
    if n > 0 {
      Remembered(g, u, s, n - 1, v, i);
      var before := RunNodes(g, Remembering(u), s, n - 1, Given());
      if Writes(g, u, s[n - 1], v) {
        assert !g.Produces(s[n - 1], v) && g.Consumes(s[n - 1], v);
        var args := InputValues(g, s[n - 1], before);
        assert args[IndexOf(g.nodes[s[n - 1]].inputs, v)] == before(v);
        assert RunNodes(g, Remembering(u), s, n, Given())(v) == Computed(s[n - 1], v, args);
      }
    }
  }

  /** Node `j` sees in `v` whether node `i` has updated it before. */
  lemma SeenBefore(g: Graph, u: Updates, a: seq<int>, b: seq<int>, i: int, j: int, v: int)
    requires UpdatesInputs(g, u) && WholeSchedule(g, a) && WholeSchedule(g, b) && v in g.variables
    requires 0 <= i < |g.nodes| && 0 <= j < |g.nodes| && Writes(g, u, i, v) && g.Consumes(j, v)
    requires SameRuns(g, Remembering(u), a, b, Given()) && Precedes(a, i, j)
    ensures Precedes(b, i, j)
  {
    var x, p :| 0 <= x < p < |a| && a[x] == i && a[p] == j;
    var q := PlaceOf(g, b, j);
    assert SeesTheSame(g, Remembering(u), a, p, b, q, Given());
    var k := IndexOf(g.nodes[j].inputs, v);
    var f, h := RunNodes(g, Remembering(u), a, p, Given()), RunNodes(g, Remembering(u), b, q, Given());
    assert f(v) == InputValues(g, a[p], f)[k] == InputValues(g, b[q], h)[k] == h(v);
    Remembered(g, u, a, p, v, i);
    Remembered(g, u, b, q, v, i);
  }

  lemma RunsTellOrder(g: Graph, u: Updates, a: seq<int>, b: seq<int>)
    requires UpdatesInputs(g, u) && WholeSchedule(g, a) && WholeSchedule(g, b)
    requires SameRuns(g, Remembering(u), a, b, Given())
    ensures OrderedAlike(g, u, a, b)
  {
    assert SameRuns(g, Remembering(u), b, a, Given()) by { SameRunsBack(g, Remembering(u), a, b, Given()); }
    forall i, j, v | Conflict(g, u, i, j, v) && Precedes(a, i, j) ensures Precedes(b, i, j) {
      if Writes(g, u, i, v) {
        SeenBefore(g, u, a, b, i, j, v);
      } else {
        assert i != j;
        OneOrTheOther(g, a, i, j);
        OneOrTheOther(g, b, i, j);
        if Precedes(b, j, i) {
          SeenBefore(g, u, b, a, j, i, v);
        }
      }
    }
  }

  lemma SameRunsBack<V(!new)>(g: Graph, k: Kernels<V>, a: seq<int>, b: seq<int>, vals: Values<V>)
    requires NodesOf(g, a) && NodesOf(g, b) && SameRuns(g, k, a, b, vals)
    ensures SameRuns(g, k, b, a, vals)
  {
    forall p, q | 0 <= p < |b| && 0 <= q < |a| && b[p] == a[q] ensures SeesTheSame(g, k, b, p, a, q, vals) {
      assert SeesTheSame(g, k, a, q, b, p, vals);
    }
  }

  /** Two dependency orders compute the same for kernels that remember - and so for all kernels -
      exactly when they order updates of variables alike. */
  lemma SameRunsIffOrderedAlike(g: Graph, u: Updates, a: seq<int>, b: seq<int>)
    requires g.InRange() && SingleProducer(g) && WholeSchedule(g, a) && WholeSchedule(g, b) && UpdatesInputs(g, u)
    ensures SameRuns(g, Remembering(u), a, b, Given()) <==> OrderedAlike(g, u, a, b)
  {
    if OrderedAlike(g, u, a, b) {
      SchedulesAgree(g, Remembering(u), a, b, Given());
    }
    if SameRuns(g, Remembering(u), a, b, Given()) {
      RunsTellOrder(g, u, a, b);
    }
  }

  // ----- Partitions ------------------------------------------------------------------------------------------

  /** Partitioning preserves meaning: the subsets, run in order with their nodes in listed order, give
      every node the inputs and every tensor the value that the original plan does, if they keep the
      order of nodes that touch and update a common variable. */
  lemma PartitionPreservesMeaning<V(!new)>(g: Graph, types: seq<NodeType>, order: seq<seq<int>>, kinds: seq<NodeType>,
                                           k: Kernels<V>, vals: Values<V>)
    requires g.InRange() && SingleProducer(g) && UsesEarlierNodes(g) && OrderedPartition(g, types, order, kinds)
    requires OrderedAlike(g, k.updates, PlanOrder(g), Flatten(order))
    ensures SameRuns(g, k, PlanOrder(g), Flatten(order), vals)
  {
    PlanOrderIsSchedule(g);
    SchedulesAgree(g, k, PlanOrder(g), Flatten(order), vals);
  }

  /** For kernels that remember, it does so only if they keep that order. */
  lemma PartitionPreservesMeaningIff(g: Graph, types: seq<NodeType>, order: seq<seq<int>>, kinds: seq<NodeType>,
                                     u: Updates)
    requires g.InRange() && SingleProducer(g) && UsesEarlierNodes(g) && OrderedPartition(g, types, order, kinds)
    requires UpdatesInputs(g, u)
    ensures SameRuns(g, Remembering(u), PlanOrder(g), Flatten(order), Given())
       <==> OrderedAlike(g, u, PlanOrder(g), Flatten(order))
  {
    PlanOrderIsSchedule(g);
    SameRunsIffOrderedAlike(g, u, PlanOrder(g), Flatten(order));
  }

  /** Without variables that anybody updates there is nothing to keep. */
  lemma NoUpdatesPreserveMeaning<V(!new)>(g: Graph, types: seq<NodeType>, order: seq<seq<int>>, kinds: seq<NodeType>,
                                          k: Kernels<V>, vals: Values<V>)
    requires g.InRange() && SingleProducer(g) && UsesEarlierNodes(g) && OrderedPartition(g, types, order, kinds)
    requires forall i, v :: 0 <= i < |g.nodes| && v in g.variables ==> !Writes(g, k.updates, i, v)
    ensures SameRuns(g, k, PlanOrder(g), Flatten(order), vals)
  {
    PartitionPreservesMeaning(g, types, order, kinds, k, vals);
  }

  // ----- A plan that loses its meaning ---------------------------------------------------------------------

  /** Three nodes that all read variable 0; the first and the third also update it. */
  ghost predicate ThreeReaders(g: Graph) {
    && g.InRange() && g.variables == [0]
    && g.nodes == [Node([0], [1], []), Node([0], [2], []), Node([0], [3], [])]
  }

  /** Kernels that count updates: every node adds one to what it reads. */
  function Counting(): Kernels<int> {
    Kernels((i, v) => i != 1, (i, t, args) => if args == [] then 0 else args[0] + 1)
  }

  lemma NothingToWaitFor(g: Graph, done: set<int>, i: int)
    requires ThreeReaders(g) && 0 <= i < 3
    ensures Ready(g, done, i) && SingleProducer(g) && UsesEarlierNodes(g) && !HasProducer(g, 0)
  {
    assert forall k, t :: 0 <= k < 3 ==> (g.Produces(k, t) <==> t == k + 1) && (g.Consumes(k, t) <==> t == 0);
    assert forall t :: t in g.nodes[i].inputs ==> t == 0;
  }

  lemma {:induction false} AnyOrderIsSchedule(g: Graph, s: seq<int>)
    requires ThreeReaders(g)
    requires forall p :: 0 <= p < |s| ==> 0 <= s[p] < 3
    requires forall p, q :: 0 <= p < q < |s| ==> s[p] != s[q]
    ensures Schedule(g, s)
  {
    forall p | 0 <= p < |s| ensures ReadyAt(g, s, p) {
      NothingToWaitFor(g, Elements(s[..p]), s[p]);
    }
  }

  lemma FlattenTwo(order: seq<seq<int>>, a: seq<int>, b: seq<int>)
    requires order == [a, b]
    ensures Flatten(order[..1]) == a && Flatten(order) == a + b
  {
    assert order[..1][..0] == [] && Flatten(order[..1]) == [] + a;
  }

  lemma ThreeOf(s: seq<int>)
    requires s == [0, 2, 1]
    ensures s[0] == 0 && s[1] == 2 && s[2] == 1 && forall i :: 0 <= i < 3 ==> i in s
  {
  }

  lemma FirstTakesBoth(g: Graph, types: seq<NodeType>, order: seq<seq<int>>, kinds: seq<NodeType>)
    requires ThreeReaders(g) && types == [Partition, NonPartition, Partition]
    requires order == [[0, 2], [1]] && kinds == [Partition, NonPartition]
    ensures GreedyAt(g, types, order, kinds, 0)
  {
    var a := [0, 2];
    FlattenTwo(order, a, [1]);
    assert a[0] == 0 && a[1] == 2;
    forall i | 0 <= i < 3 && i !in Done(order, 1) ensures i == 1 {
      assert 0 in a && 2 in a;
    }
  }

  lemma SecondTakesRest(g: Graph, types: seq<NodeType>, order: seq<seq<int>>, kinds: seq<NodeType>)
    requires ThreeReaders(g) && types == [Partition, NonPartition, Partition]
    requires order == [[0, 2], [1]] && kinds == [Partition, NonPartition]
    ensures GreedyAt(g, types, order, kinds, 1)
  {
    FlattenTwo(order, [0, 2], [1]);
    ThreeOf(Flatten(order));
    assert order[..2] == order && order[1][0] == 1;
  }

  lemma ThirdBeforeSecond(g: Graph, order: seq<seq<int>>)
    requires ThreeReaders(g) && order == [[0, 2], [1]]
    ensures Flatten(order) == [0, 2, 1] && Schedule(g, Flatten(order))
  {
    FlattenTwo(order, [0, 2], [1]);
    var s := Flatten(order);
    ThreeOf(s);
    AnyOrderIsSchedule(g, s);
  }

  /** What the partitioner makes of that plan when the first and the third node go to a delegate. */
  lemma GreedyJoinsThird(g: Graph, types: seq<NodeType>, order: seq<seq<int>>, kinds: seq<NodeType>)
    requires ThreeReaders(g) && types == [Partition, NonPartition, Partition]
    requires order == [[0, 2], [1]] && kinds == [Partition, NonPartition]
    ensures Flatten(order) == [0, 2, 1] && Greedy(g, types, order, kinds)
  {
    ThirdBeforeSecond(g, order);
    FirstTakesBoth(g, types, order, kinds);
    SecondTakesRest(g, types, order, kinds);
  }

  lemma BothTakeType(g: Graph, types: seq<NodeType>)
    requires ThreeReaders(g) && types == [Partition, NonPartition, Partition]
    ensures TakesType(g, types, {}, [0, 2], Partition) && TakesType(g, types, Elements([0, 2]), [1], NonPartition)
  {
    var a, b := [0, 2], [1];
    assert a[0] == 0 && a[1] == 2 && b[0] == 1;
    forall p | 0 <= p < 2 ensures Ready(g, {} + Elements(a[..p]), a[p]) {
      NothingToWaitFor(g, {} + Elements(a[..p]), a[p]);
    }
    NothingToWaitFor(g, Elements(a) + Elements(b[..0]), 1);
  }

  lemma ThirdJoinsInTurn(g: Graph, types: seq<NodeType>)
    requires ThreeReaders(g) && types == [Partition, NonPartition, Partition]
    ensures AllInTurn(g, types, [[0, 2], [1]])
  {
    BothTakeType(g, types);
    BothInTurn(g, types, [0, 2], Partition, [1], NonPartition);
  }

  lemma GreedyIsPartition(g: Graph, types: seq<NodeType>, order: seq<seq<int>>, kinds: seq<NodeType>)
    requires ThreeReaders(g) && Greedy(g, types, order, kinds) && Flatten(order) == [0, 2, 1]
    ensures OrderedPartition(g, types, order, kinds)
  {
    ThreeOf(Flatten(order));
    forall k | 0 <= k < |order| ensures OfType(types, order[k], kinds[k]) {
      assert GreedyAt(g, types, order, kinds, k);
    }
  }

  /** Running a node of that plan with counting kernels. */
  lemma Counts(g: Graph, i: int, vals: Values<int>)
    requires ThreeReaders(g) && 0 <= i < 3
    ensures var after := RunNode(g, Counting(), i, vals);
            && after(0) == (if i == 1 then vals(0) else vals(0) + 1)
            && after(2) == (if i == 1 then vals(0) + 1 else vals(2))
  {
    var inputs := InputValues(g, i, vals);
    assert inputs[0] == vals(0);
    assert g.Produces(i, 2) <==> i == 1;
    assert !g.Produces(i, 0);
  }

  lemma ThreeRuns(g: Graph, s: seq<int>, vals: Values<int>)
    requires ThreeReaders(g) && |s| == 3 && NodesOf(g, s)
    ensures RunNodes(g, Counting(), s, 3, vals)
         == RunNode(g, Counting(), s[2], RunNode(g, Counting(), s[1], RunNode(g, Counting(), s[0], vals)))
  {
    assert RunNodes(g, Counting(), s, 1, vals) == RunNode(g, Counting(), s[0], vals);
  }

  /** The partitioner's subsets give tensor 2 another value than the plan, for kernels that count. */
  ghost predicate Miscounts(g: Graph, types: seq<NodeType>, order: seq<seq<int>>, kinds: seq<NodeType>) {
    && g.InRange() && SingleProducer(g) && UsesEarlierNodes(g)
    && Partitioned(g, types, order, kinds) && OrderedPartition(g, types, order, kinds)
    && RunNodes(g, Counting(), PlanOrder(g), |g.nodes|, _ => 0)(2) == 2
    && |Flatten(order)| == |g.nodes| && RunNodes(g, Counting(), Flatten(order), |g.nodes|, _ => 0)(2) == 3
  }

  lemma ThirdCountsFirst(g: Graph, types: seq<NodeType>, order: seq<seq<int>>, kinds: seq<NodeType>)
    requires ThreeReaders(g) && types == [Partition, NonPartition, Partition]
    requires order == [[0, 2], [1]] && kinds == [Partition, NonPartition]
    ensures Miscounts(g, types, order, kinds)
  {
    NothingToWaitFor(g, {}, 0);
    GreedyJoinsThird(g, types, order, kinds);
    ThirdJoinsInTurn(g, types);
    GreedyIsPartition(g, types, order, kinds);
    CountsOfBoth(g);
  }

  lemma CountsOfBoth(g: Graph)
    requires ThreeReaders(g)
    ensures RunNodes(g, Counting(), PlanOrder(g), 3, _ => 0)(2) == 2
    ensures RunNodes(g, Counting(), [0, 2, 1], 3, _ => 0)(2) == 3
  {
    var zero: Values<int> := _ => 0;
    var first := RunNode(g, Counting(), 0, zero);
    Counts(g, 0, zero);
    ThreeRuns(g, PlanOrder(g), zero);
    Counts(g, 1, first);
    Counts(g, 2, RunNode(g, Counting(), 1, first));
    ThreeRuns(g, [0, 2, 1], zero);
    Counts(g, 2, first);
    Counts(g, 1, RunNode(g, Counting(), 2, first));
  }

  lemma SuchAPlan(tensor: Tensor)
    ensures ThreeReaders(Graph([tensor, tensor, tensor, tensor],
                               [Node([0], [1], []), Node([0], [2], []), Node([0], [3], [])],
                               [0, 1, 2], 3, [], [3], [0]))
  {
  }

  /** There is a plan of three nodes and a delegate that takes the first and the third, so that the
      second runs after two updates of a variable instead of one. */
  lemma UpdatesMayBeReordered()
    ensures exists g, types, order, kinds :: Miscounts(g, types, order, kinds)
  {
    var tensor := Tensor(0, Other);
    var g := Graph([tensor, tensor, tensor, tensor], [Node([0], [1], []), Node([0], [2], []), Node([0], [3], [])],
                   [0, 1, 2], 3, [], [3], [0]);
    SuchAPlan(tensor);
    ThirdCountsFirst(g, [Partition, NonPartition, Partition], [[0, 2], [1]], [Partition, NonPartition]);
  }
}
