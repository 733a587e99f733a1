/** The planner's bookkeeping as values: what placing, dropping and resetting tensors does to the
    records and to the two arena plans, and the invariant that every such step keeps. */
module ArenaPlan {
  import opened Basics
  import opened GraphInfo
  import opened MemoryArena
  import opened Lifetimes

  const ARENA_ALIGNMENT: nat := 64

  /** `allocs[t]` is the recorded allocation of tensor `t`; `rw` and `persistent` are the sorted
      entries of the two arenas, with their high-water marks. */
  datatype Plan = Plan(
    allocs: seq<Alloc>,
    allocNode: seq<int>,
    deallocNode: seq<int>,
    rw: seq<Alloc>,
    rwHigh: nat,
    persistent: seq<Alloc>,
    persistentHigh: nat)

  ghost predicate OneEach(entries: seq<Alloc>) {
    forall i, j :: 0 <= i < j < |entries| ==> entries[i].tensor != entries[j].tensor
  }

  /** `e` is the record of a shared tensor that is not about to be placed anew. */
  ghost predicate IsRecord(p: Plan, kinds: seq<AllocationType>, pending: set<int>, e: Alloc)
    requires |kinds| == |p.allocs|
  {
    && 0 <= e.tensor < |kinds| && e.tensor !in pending && kinds[e.tensor] == ArenaRw
    && e == p.allocs[e.tensor] && e.size > 0
  }

  /** Every non-empty record is an entry of its arena, except those about to be placed anew. */
  ghost predicate RecordIsEntry(p: Plan, kinds: seq<AllocationType>, pending: set<int>, t: int)
    requires |kinds| == |p.allocs| && 0 <= t < |kinds|
  {
    if p.allocs[t].size == 0 then p.allocs[t].offset == 0
    else
      && p.allocs[t].tensor == t
      && match kinds[t]
         case ArenaRw => t in pending || p.allocs[t] in p.rw
         case ArenaRwPersistent => p.allocs[t] in p.persistent
         case Other => false
  }

  ghost predicate SharedInv(p: Plan, kinds: seq<AllocationType>, alignment: nat, pending: set<int>)
    requires |kinds| == |p.allocs| && alignment > 0
  {
    && SoundPlan(p.rw, p.rwHigh) && AlignedPlan(p.rw, alignment) && OneEach(p.rw)
    && (forall e :: e in p.rw ==> IsRecord(p, kinds, pending, e))
  }

  ghost predicate PersistentInv(p: Plan, alignment: nat)
    requires alignment > 0
  {
    && SoundPlan(p.persistent, p.persistentHigh) && AlignedPlan(p.persistent, alignment)
    && (forall e :: e in p.persistent ==> e.lastNode == NOT_ASSIGNED)
  }

  /** What every step keeps; `pending` are tensors dropped from the shared arena and not yet
      placed again. */
  ghost predicate Inv(p: Plan, kinds: seq<AllocationType>, alignment: nat, pending: set<int>) {
    && alignment > 0
    && |kinds| == |p.allocs|
    && SharedInv(p, kinds, alignment, pending)
    && PersistentInv(p, alignment)
    && (forall t :: 0 <= t < |kinds| ==> RecordIsEntry(p, kinds, pending, t))
    && (alignment > ARENA_ALIGNMENT ==> forall t :: 0 <= t < |kinds| ==> p.allocs[t].size == 0)
  }

  ghost predicate Agrees(kinds: seq<AllocationType>, g: Graph) {
    forall t :: 0 <= t < |kinds| && t < |g.tensors| ==> g.tensors[t].kind == kinds[t]
  }

  // ----- What the invariant is for -------------------------------------------------------------

  /** Two recorded tensors of one arena whose node intervals meet never share a byte. */
  lemma LiveTensorsAreDisjoint(p: Plan, kinds: seq<AllocationType>, alignment: nat, t: int, u: int)
    requires Inv(p, kinds, alignment, {})
    requires 0 <= t < |kinds| && 0 <= u < |kinds| && t != u && kinds[t] == kinds[u]
    requires p.allocs[t].size != 0 && p.allocs[u].size != 0
    requires kinds[t] == ArenaRw ==> p.allocs[t].InUse(p.allocs[u].firstNode, p.allocs[u].lastNode)
    requires kinds[t] == ArenaRwPersistent ==>
               p.allocs[t].firstNode <= NOT_ASSIGNED && p.allocs[u].firstNode <= NOT_ASSIGNED
    ensures DisjointBytes(p.allocs[t], p.allocs[u])
  {
    assert RecordIsEntry(p, kinds, {}, t) && RecordIsEntry(p, kinds, {}, u);
    var entries := if kinds[t] == ArenaRw then p.rw else p.persistent;
    var i :| 0 <= i < |entries| && entries[i] == p.allocs[t];
    var j :| 0 <= j < |entries| && entries[j] == p.allocs[u];
    assert i != j;
    if i < j {
      assert entries[i].InUse(entries[j].firstNode, entries[j].lastNode);
    } else {
      assert entries[j].InUse(entries[i].firstNode, entries[i].lastNode);
    }
  }

  lemma {:induction false} NoneOfOthers(entries: seq<Alloc>, t: int)
    requires forall i :: 0 <= i < |entries| ==> entries[i].tensor != t
    ensures Occurrences(entries, t) == 0
  {
    if entries != [] {
      NoneOfOthers(entries[..|entries| - 1], t);
    }
  }

  lemma {:induction false} AtMostOne(entries: seq<Alloc>, t: int)
    requires OneEach(entries)
    ensures Occurrences(entries, t) <= 1
    ensures Occurrences(entries, t) == 1 <==> exists i :: 0 <= i < |entries| && entries[i].tensor == t
  {
    if entries != [] {
      var n := |entries| - 1;
      AtMostOne(entries[..n], t);
      if entries[n].tensor == t {
        NoneOfOthers(entries[..n], t);
      } else if exists i :: 0 <= i < |entries| && entries[i].tensor == t {
        var i :| 0 <= i < |entries| && entries[i].tensor == t;
        assert entries[..n][i].tensor == t;
      }
    }
  }

  /** A shared tensor has exactly one entry when its record is non-empty, and none otherwise. */
  lemma OneEntryPerTensor(p: Plan, kinds: seq<AllocationType>, alignment: nat, t: int)
    requires Inv(p, kinds, alignment, {}) && 0 <= t < |kinds| && kinds[t] == ArenaRw
    ensures Occurrences(p.rw, t) == if p.allocs[t].size != 0 then 1 else 0
    ensures p.allocs[t].size != 0 ==> p.allocs[t] in p.rw
  {
    AtMostOne(p.rw, t);
    assert RecordIsEntry(p, kinds, {}, t);
    forall i | 0 <= i < |p.rw| && p.rw[i].tensor == t ensures p.allocs[t].size > 0 {
      assert IsRecord(p, kinds, {}, p.rw[i]);
    }
  }

  /** A record never reaches beyond its arena's high-water mark, and starts aligned. */
  lemma RecordsAreInside(p: Plan, kinds: seq<AllocationType>, alignment: nat, t: int)
    requires Inv(p, kinds, alignment, {}) && 0 <= t < |kinds|
    ensures kinds[t] == ArenaRw ==> p.allocs[t].End() <= p.rwHigh
    ensures kinds[t] == ArenaRwPersistent ==> p.allocs[t].End() <= p.persistentHigh
    ensures p.allocs[t].offset % alignment == 0
  {
    assert RecordIsEntry(p, kinds, {}, t);
    if p.allocs[t].size != 0 {
      var entries := if kinds[t] == ArenaRw then p.rw else p.persistent;
      var i :| 0 <= i < |entries| && entries[i] == p.allocs[t];
    }
  }

  // ----- Steps ---------------------------------------------------------------------------------

  function Grown(p: Plan, n: nat): Plan {
    p.(allocs := Resized(p.allocs, n, RESET_ALLOC),
       allocNode := Resized(p.allocNode, n, NOT_ASSIGNED),
       deallocNode := Resized(p.deallocNode, n, NOT_ASSIGNED))
  }

  /** The last node in `[lo, hi)` that has `t` as a temporary, or -1. */
  function LastHolder(nodes: seq<Node>, lo: nat, hi: nat, t: int): (i: int)
    requires hi <= |nodes|
    ensures i == -1 || (lo <= i < hi && t in nodes[i].temporaries)
    ensures forall k :: lo <= k < hi && k > i ==> t !in nodes[k].temporaries
  {
    if lo >= hi then -1
    else if t in nodes[hi - 1].temporaries then hi - 1
    else LastHolder(nodes, lo, hi - 1, t)
  }

  /** Alloc or dealloc nodes once the temporaries of nodes `[lo, hi)` are registered. */
  function WithTemporaries(at: seq<int>, nodes: seq<Node>, lo: nat, hi: nat): (r: seq<int>)
    requires hi <= |nodes|
    ensures |r| == |at|
    ensures forall t :: 0 <= t < |at| ==>
              r[t] == if LastHolder(nodes, lo, hi, t) >= 0 then LastHolder(nodes, lo, hi, t) else at[t]
  {
    seq(|at|, t requires 0 <= t < |at| =>
      if LastHolder(nodes, lo, hi, t) >= 0 then LastHolder(nodes, lo, hi, t) else at[t])
  }

  /** The nodes whose temporaries an execution of `[first, last]` registers; both bounds are read
      as unsigned numbers. */
  function TemporaryRange(g: Graph, first: int, last: int): (r: (nat, nat))
    ensures r.1 <= |g.nodes|
  {
    (if first < 0 then |g.nodes| else first, if last < 0 || last >= |g.nodes| then |g.nodes| else last + 1)
  }

  function Prepared(p: Plan, g: Graph, first: int, last: int): Plan {
    var grown := Grown(p, |g.tensors|);
    var (lo, hi) := TemporaryRange(g, first, last);
    grown.(allocNode := WithTemporaries(grown.allocNode, g.nodes, lo, hi),
           deallocNode := WithTemporaries(grown.deallocNode, g.nodes, lo, hi))
  }

  /** Node `i` is in `[first, last]`, whose bounds are read as unsigned: negative ones exceed every node. */
  predicate InRange(g: Graph, first: int, last: int, i: int) {
    0 <= first <= i < |g.nodes| && (last < 0 || i <= last)
  }

  /** It is the last one of them that has `t` as a temporary. */
  ghost predicate LastUser(g: Graph, first: int, last: int, t: int, i: int) {
    && InRange(g, first, last, i) && t in g.nodes[i].temporaries
    && forall k :: i < k && InRange(g, first, last, k) ==> t !in g.nodes[k].temporaries
  }

  /** A temporary lives at the last node of the range that has it, and nowhere else; what no node of the
      range has as a temporary keeps its nodes. */
  lemma TemporariesLiveOnce(p: Plan, g: Graph, first: int, last: int, t: nat)
    requires t < |g.tensors| && |p.allocNode| <= |g.tensors| && |p.deallocNode| <= |g.tensors|
    ensures forall i :: LastUser(g, first, last, t, i) ==>
              var r := Prepared(p, g, first, last); r.allocNode[t] == i && r.deallocNode[t] == i
    ensures (forall i :: !LastUser(g, first, last, t, i)) ==>
              var r := Prepared(p, g, first, last);
              && r.allocNode[t] == (if t < |p.allocNode| then p.allocNode[t] else NOT_ASSIGNED)
              && r.deallocNode[t] == (if t < |p.deallocNode| then p.deallocNode[t] else NOT_ASSIGNED)
  {
    var (lo, hi) := TemporaryRange(g, first, last);
    var h := LastHolder(g.nodes, lo, hi, t);
    if h >= 0 {
      assert LastUser(g, first, last, t, h);
    }
    forall i | LastUser(g, first, last, t, i) ensures h == i {
      assert lo <= i < hi;
    }
  }

  ghost predicate Covers(p: Plan, g: Graph) {
    |p.allocs| == |p.allocNode| == |p.deallocNode| == |g.tensors|
  }

  predicate Tensors(order: seq<int>, g: Graph) {
    forall k :: 0 <= k < |order| ==> 0 <= order[k] < |g.tensors|
  }

  predicate NoRepeats(order: seq<int>) {
    forall i, j :: 0 <= i < j < |order| ==> order[i] != order[j]
  }

  function DropTensor(p: Plan, g: Graph, t: int): Plan
    requires 0 <= t < |p.allocs| && t < |g.tensors|
  {
    if g.tensors[t].kind == ArenaRw && p.allocs[t].size != 0 then
      p.(rw := RemoveTensor(p.rw, p.allocs[t].tensor))
    else p
  }

  function DropAll(p: Plan, g: Graph, order: seq<int>): (r: Plan)
    requires |p.allocs| == |g.tensors| && Tensors(order, g)
    ensures r == p.(rw := r.rw)
  {
    if order == [] then p
    else DropTensor(DropAll(p, g, order[..|order| - 1]), g, order[|order| - 1])
  }

  /** Entries, high-water mark and record after a request. */
  function Placed(entries: seq<Alloc>, high: nat, q: Request): (seq<Alloc>, nat, Alloc)
    requires q.alignment > 0
  {
    if q.size == 0 then (entries, high, Recorded(q, 0))
    else
      var a := Recorded(q, ChooseOffset(entries, q));
      (InsertSorted(entries, a), Max(high, a.End()), a)
  }

  function PlaceTensor(p: Plan, g: Graph, t: int, alignment: nat): (r: Plan)
    requires alignment > 0 && Covers(p, g) && 0 <= t < |g.tensors|
    ensures Covers(r, g) && r.allocNode == p.allocNode && r.deallocNode == p.deallocNode
  {
    if alignment > ARENA_ALIGNMENT then p
    else
      match g.tensors[t].kind
      case ArenaRw =>
        var (entries, high, a) :=
          Placed(p.rw, p.rwHigh, Request(alignment, g.tensors[t].bytes, t, p.allocNode[t], p.deallocNode[t]));
        p.(allocs := p.allocs[t := a], rw := entries, rwHigh := high)
      case ArenaRwPersistent =>
        var (entries, high, a) :=
          Placed(p.persistent, p.persistentHigh,
                 Request(alignment, g.tensors[t].bytes, t, p.allocNode[t], NOT_ASSIGNED));
        p.(allocs := p.allocs[t := a], persistent := entries, persistentHigh := high)
      case Other => p
  }

  function PlaceAll(p: Plan, g: Graph, order: seq<int>, alignment: nat): (r: Plan)
    requires alignment > 0 && Covers(p, g)
    requires Tensors(order, g)
    ensures Covers(r, g) && r.allocNode == p.allocNode && r.deallocNode == p.deallocNode
  {
    if order == [] then p
    else PlaceTensor(PlaceAll(p, g, order[..|order| - 1], alignment), g, order[|order| - 1], alignment)
  }

  // ----- The order of placement ----------------------------------------------------------------

  predicate WholeRun(p: Plan, t: int)
    requires 0 <= t < |p.allocNode| && t < |p.deallocNode|
  {
    p.allocNode[t] == 0 && p.deallocNode[t] == NOT_ASSIGNED
  }

  /** The sorting comparator: whole-run tensors first by index, the others by falling size and
      then by rising alloc node. */
  predicate Before(p: Plan, g: Graph, t: int, u: int)
    requires Covers(p, g) && 0 <= t < |g.tensors| && 0 <= u < |g.tensors|
  {
    if WholeRun(p, t) then !WholeRun(p, u) || t < u
    else if WholeRun(p, u) then false
    else if g.tensors[t].bytes != g.tensors[u].bytes then g.tensors[t].bytes > g.tensors[u].bytes
    else p.allocNode[t] < p.allocNode[u]
  }

  /** A strict weak order, as the library's sort demands. */
  lemma BeforeIsStrictWeakOrder(p: Plan, g: Graph, t: int, u: int, v: int)
    requires Covers(p, g) && 0 <= t < |g.tensors| && 0 <= u < |g.tensors| && 0 <= v < |g.tensors|
    ensures !Before(p, g, t, t)
    ensures Before(p, g, t, u) && Before(p, g, u, v) ==> Before(p, g, t, v)
    ensures !Before(p, g, t, u) && !Before(p, g, u, v) ==> !Before(p, g, t, v)
  {
  }

  /** Any order the library's sort may leave: each tensor whose alloc node is in `[first, last]`
      once, and none before one that it must follow. */
  ghost predicate PlacementOrder(order: seq<int>, p: Plan, g: Graph, first: int, last: int)
    requires Covers(p, g)
  {
    && Tensors(order, g) && NoRepeats(order)
    && (forall t :: 0 <= t < |g.tensors| ==> (t in order <==> first <= p.allocNode[t] <= last))
    && (forall i, j :: 0 <= i < j < |order| ==> !Before(p, g, order[j], order[i]))
  }

  /** Tensors that live through the whole run come first, by index, and the others by falling size,
      those of one size by rising alloc node. */
  predicate LargestFirst(order: seq<int>, g: Graph, allocNode: seq<int>, deallocNode: seq<int>)
    requires |allocNode| == |deallocNode| == |g.tensors| && Tensors(order, g)
  {
    forall i, j :: 0 <= i < j < |order| ==>
      var t, u := order[i], order[j];
      var whole := allocNode[t] == 0 && deallocNode[t] == NOT_ASSIGNED;
      if allocNode[u] == 0 && deallocNode[u] == NOT_ASSIGNED then whole && t < u
      else whole || g.tensors[t].bytes > g.tensors[u].bytes
           || (g.tensors[t].bytes == g.tensors[u].bytes && allocNode[t] <= allocNode[u])
  }

  lemma PlacementIsLargestFirst(order: seq<int>, p: Plan, g: Graph, first: int, last: int)
    requires Covers(p, g) && PlacementOrder(order, p, g, first, last)
    ensures LargestFirst(order, g, p.allocNode, p.deallocNode)
  {
    forall i, j | 0 <= i < j < |order| ensures !Before(p, g, order[j], order[i]) && order[i] != order[j] {
    }
  }

  // ----- Every step keeps the invariant --------------------------------------------------------

  lemma GrowKeepsInv(p: Plan, kinds: seq<AllocationType>, g: Graph, alignment: nat)
    requires Inv(p, kinds, alignment, {}) && Agrees(kinds, g) && |p.allocs| <= |g.tensors|
    ensures Inv(Grown(p, |g.tensors|), KindsOf(g), alignment, {})
  {
    var q, all := Grown(p, |g.tensors|), KindsOf(g);
    forall e | e in q.rw ensures IsRecord(q, all, {}, e) {
      assert IsRecord(p, kinds, {}, e);
    }
    forall t | 0 <= t < |all| ensures RecordIsEntry(q, all, {}, t) {
      if t < |kinds| {
        assert RecordIsEntry(p, kinds, {}, t);
      }
    }
  }

  function KindsOf(g: Graph): (k: seq<AllocationType>)
    ensures |k| == |g.tensors| && forall t :: 0 <= t < |k| ==> k[t] == g.tensors[t].kind
  {
    seq(|g.tensors|, t requires 0 <= t < |g.tensors| => g.tensors[t].kind)
  }

  lemma NodesDoNotMatter(p: Plan, q: Plan, kinds: seq<AllocationType>, alignment: nat, pending: set<int>)
    requires Inv(p, kinds, alignment, pending)
    requires q == p.(allocNode := q.allocNode, deallocNode := q.deallocNode)
    ensures Inv(q, kinds, alignment, pending)
  {
    forall e | e in q.rw ensures IsRecord(q, kinds, pending, e) {
      assert IsRecord(p, kinds, pending, e);
    }
    forall t | 0 <= t < |kinds| ensures RecordIsEntry(q, kinds, pending, t) {
      assert RecordIsEntry(p, kinds, pending, t);
    }
  }

  lemma {:induction false} RemovedStaysOneEach(entries: seq<Alloc>, t: int)
    requires OneEach(entries)
    ensures OneEach(RemoveTensor(entries, t))
  {
    if entries != [] {
      var n := |entries| - 1;
      RemovedStaysOneEach(entries[..n], t);
      RemoveTensorContents(entries[..n], t);
      var rest := RemoveTensor(entries[..n], t);
      forall i | 0 <= i < |rest| ensures rest[i].tensor != entries[n].tensor {
        assert rest[i] in entries[..n];
      }
    }
  }

  /** Dropping a tensor leaves a sound plan without it. */
  lemma RemovedIsSound(p: Plan, kinds: seq<AllocationType>, alignment: nat, pending: set<int>, t: int)
    requires |kinds| == |p.allocs| && alignment > 0 && SharedInv(p, kinds, alignment, pending)
    ensures SharedInv(p.(rw := RemoveTensor(p.rw, t)), kinds, alignment, pending + {t})
  {
    RemoveTensorIsSound(p.rw, p.rwHigh, t);
    RemovedStaysOneEach(p.rw, t);
    RemoveTensorContents(p.rw, t);
    var q := p.(rw := RemoveTensor(p.rw, t));
    forall e | e in q.rw ensures IsRecord(q, kinds, pending + {t}, e) {
      assert IsRecord(p, kinds, pending, e);
    }
  }

  lemma DropKeepsInv(p: Plan, g: Graph, alignment: nat, pending: set<int>, t: int)
    requires Inv(p, KindsOf(g), alignment, pending) && 0 <= t < |g.tensors|
    ensures Inv(DropTensor(p, g, t), KindsOf(g), alignment, pending + {t})
  {
    var q, kinds := DropTensor(p, g, t), KindsOf(g);
    assert RecordIsEntry(p, kinds, pending, t);
    if kinds[t] == ArenaRw && p.allocs[t].size != 0 {
      RemovedIsSound(p, kinds, alignment, pending, t);
      RemoveTensorContents(p.rw, t);
    } else {
      forall e | e in p.rw ensures IsRecord(p, kinds, pending + {t}, e) {
        assert IsRecord(p, kinds, pending, e) && e.size > 0;
      }
    }
    forall u | 0 <= u < |kinds| ensures RecordIsEntry(q, kinds, pending + {t}, u) {
      assert RecordIsEntry(p, kinds, pending, u);
    }
  }

  lemma {:induction false} DropAllKeepsInv(p: Plan, g: Graph, order: seq<int>, alignment: nat)
    requires Inv(p, KindsOf(g), alignment, {})
    requires Tensors(order, g)
    ensures Inv(DropAll(p, g, order), KindsOf(g), alignment, Elements(order))
  {
    if order != [] {
      var n := |order| - 1;
      assert order == order[..n] + [order[n]];
      DropAllKeepsInv(p, g, order[..n], alignment);
      DropKeepsInv(DropAll(p, g, order[..n]), g, alignment, Elements(order[..n]), order[n]);
      assert Elements(order) == Elements(order[..n]) + {order[n]};
    } else {
      assert Elements(order) == {};
    }
  }

  lemma PlacedIsSound(entries: seq<Alloc>, high: nat, q: Request)
    requires SoundPlan(entries, high) && q.alignment > 0 && high < SIZE_MAX
    requires AlignedPlan(entries, q.alignment)
    ensures var (r, h, a) := Placed(entries, high, q);
            && SoundPlan(r, h) && AlignedPlan(r, q.alignment)
            && h <= high + q.alignment + q.size && h >= high
            && (forall e :: e in r <==> (q.size > 0 && e == a) || e in entries)
  {
    if q.size > 0 {
      var a := Recorded(q, ChooseOffset(entries, q));
      ChooseOffsetIsFree(entries, q, high);
      PlacementIsSound(entries, high, a);
      InsertSortedContents(entries, a);
    }
  }

  lemma InsertedStaysOneEach(entries: seq<Alloc>, a: Alloc)
    requires OneEach(entries) && forall i :: 0 <= i < |entries| ==> entries[i].tensor != a.tensor
    ensures OneEach(InsertSorted(entries, a))
  {
  }

  lemma PlaceKeepsInv(p: Plan, g: Graph, alignment: nat, pending: set<int>, t: int)
    requires Inv(p, KindsOf(g), alignment, pending) && Covers(p, g) && 0 <= t < |g.tensors| && t in pending
    requires p.rwHigh < SIZE_MAX && p.persistentHigh < SIZE_MAX
    ensures Inv(PlaceTensor(p, g, t, alignment), KindsOf(g), alignment, pending - {t})
  {
    var q, kinds := PlaceTensor(p, g, t, alignment), KindsOf(g);
    assert RecordIsEntry(p, kinds, pending, t);
    if alignment <= ARENA_ALIGNMENT && kinds[t] == ArenaRw {
      PlaceSharedKeepsInv(p, g, alignment, pending, t);
    } else if alignment <= ARENA_ALIGNMENT && kinds[t] == ArenaRwPersistent {
      PlacePersistentKeepsInv(p, g, alignment, pending, t);
    } else {
      forall u | 0 <= u < |kinds| ensures RecordIsEntry(q, kinds, pending - {t}, u) {
        assert RecordIsEntry(p, kinds, pending, u);
      }
    }
  }

  lemma PlaceSharedKeepsInv(p: Plan, g: Graph, alignment: nat, pending: set<int>, t: int)
    requires Inv(p, KindsOf(g), alignment, pending) && Covers(p, g) && 0 <= t < |g.tensors| && t in pending
    requires p.rwHigh < SIZE_MAX && alignment <= ARENA_ALIGNMENT && g.tensors[t].kind == ArenaRw
    ensures Inv(PlaceTensor(p, g, t, alignment), KindsOf(g), alignment, pending - {t})
  {
    var q, kinds := PlaceTensor(p, g, t, alignment), KindsOf(g);
    var request := Request(alignment, g.tensors[t].bytes, t, p.allocNode[t], p.deallocNode[t]);
    PlacedIsSound(p.rw, p.rwHigh, request);
    assert q.rw == Placed(p.rw, p.rwHigh, request).0 && q.allocs[t] == Placed(p.rw, p.rwHigh, request).2;
    SharedRecords(p, q, kinds, alignment, pending, t);
    assert OneEach(q.rw) by {
      forall i | 0 <= i < |p.rw| ensures p.rw[i].tensor != t {
        assert IsRecord(p, kinds, pending, p.rw[i]);
      }
      if request.size > 0 {
        InsertedStaysOneEach(p.rw, q.allocs[t]);
      }
    }
  }

  lemma SharedRecords(p: Plan, q: Plan, kinds: seq<AllocationType>, alignment: nat, pending: set<int>, t: int)
    requires Inv(p, kinds, alignment, pending) && 0 <= t < |kinds| && t in pending && kinds[t] == ArenaRw
    requires |q.allocs| == |p.allocs| && q.allocs == p.allocs[t := q.allocs[t]] && q.allocs[t].tensor == t
        && q.persistent == p.persistent
    requires q.allocs[t].size == 0 ==> q.allocs[t].offset == 0
    requires forall e :: e in q.rw <==> (q.allocs[t].size > 0 && e == q.allocs[t]) || e in p.rw
    ensures forall e :: e in q.rw ==> IsRecord(q, kinds, pending - {t}, e)
    ensures forall u :: 0 <= u < |kinds| ==> RecordIsEntry(q, kinds, pending - {t}, u)
  {
    forall e | e in q.rw ensures IsRecord(q, kinds, pending - {t}, e) {
      assert e in p.rw ==> IsRecord(p, kinds, pending, e);
    }
    forall u | 0 <= u < |kinds| ensures RecordIsEntry(q, kinds, pending - {t}, u) {
      assert RecordIsEntry(p, kinds, pending, u);
    }
  }

  lemma PlacePersistentKeepsInv(p: Plan, g: Graph, alignment: nat, pending: set<int>, t: int)
    requires Inv(p, KindsOf(g), alignment, pending) && Covers(p, g) && 0 <= t < |g.tensors| && t in pending
    requires p.persistentHigh < SIZE_MAX && alignment <= ARENA_ALIGNMENT && g.tensors[t].kind == ArenaRwPersistent
    ensures Inv(PlaceTensor(p, g, t, alignment), KindsOf(g), alignment, pending - {t})
  {
    var q, kinds := PlaceTensor(p, g, t, alignment), KindsOf(g);
    var request := Request(alignment, g.tensors[t].bytes, t, p.allocNode[t], NOT_ASSIGNED);
    PlacedIsSound(p.persistent, p.persistentHigh, request);
    forall e | e in q.rw ensures IsRecord(q, kinds, pending - {t}, e) {
      assert IsRecord(p, kinds, pending, e);
    }
    forall u | 0 <= u < |kinds| ensures RecordIsEntry(q, kinds, pending - {t}, u) {
      assert RecordIsEntry(p, kinds, pending, u);
    }
  }

  // ----- Room -----------------------------------------------------------------------------------

  /** What the first `n` tensors may add to a high-water mark, those outside `s` left out. */
  ghost function Room(g: Graph, alignment: nat, s: set<int>, n: nat): nat
    requires n <= |g.tensors|
  {
    if n == 0 then 0
    else Room(g, alignment, s, n - 1) + (if n - 1 in s then alignment + g.tensors[n - 1].bytes else 0)
  }

  ghost function TotalRoom(g: Graph, alignment: nat): nat {
    Room(g, alignment, set t | 0 <= t < |g.tensors| && g.IsTensor(t), |g.tensors|)
  }

  lemma {:induction false} RoomWithout(g: Graph, alignment: nat, s: set<int>, t: int, n: nat)
    requires n <= |g.tensors| && t in s && 0 <= t
    ensures Room(g, alignment, s, n)
         == Room(g, alignment, s - {t}, n) + (if t < n then alignment + g.tensors[t].bytes else 0)
  {
    if n > 0 {
      RoomWithout(g, alignment, s, t, n - 1);
    }
  }

  lemma {:induction false} RoomGrows(g: Graph, alignment: nat, s: set<int>, u: set<int>, n: nat)
    requires n <= |g.tensors| && s <= u
    ensures Room(g, alignment, s, n) <= Room(g, alignment, u, n)
  {
    if n > 0 {
      RoomGrows(g, alignment, s, u, n - 1);
    }
  }

  /** Both arenas have room for the tensors of `s`. */
  ghost predicate HasRoom(p: Plan, g: Graph, alignment: nat, s: set<int>) {
    && p.rwHigh + Room(g, alignment, s, |g.tensors|) < SIZE_MAX
    && p.persistentHigh + Room(g, alignment, s, |g.tensors|) < SIZE_MAX
  }

  lemma PlaceKeepsRoom(p: Plan, g: Graph, alignment: nat, s: set<int>, t: int)
    requires Inv(p, KindsOf(g), alignment, s) && Covers(p, g) && 0 <= t < |g.tensors| && t in s
    requires HasRoom(p, g, alignment, s)
    ensures HasRoom(PlaceTensor(p, g, t, alignment), g, alignment, s - {t})
    ensures p.rwHigh + alignment + g.tensors[t].bytes < SIZE_MAX
    ensures p.persistentHigh + alignment + g.tensors[t].bytes < SIZE_MAX
    ensures PlaceTensor(p, g, t, alignment).rwHigh >= p.rwHigh
    ensures PlaceTensor(p, g, t, alignment).persistentHigh >= p.persistentHigh
  {
    RoomWithout(g, alignment, s, t, |g.tensors|);
    PlacedIsSound(p.rw, p.rwHigh, Request(alignment, g.tensors[t].bytes, t, p.allocNode[t], p.deallocNode[t]));
    PlacedIsSound(p.persistent, p.persistentHigh,
                  Request(alignment, g.tensors[t].bytes, t, p.allocNode[t], NOT_ASSIGNED));
  }

  /** Placing dropped tensors one after the other. */
  lemma {:induction false} PlaceAllKeepsInv(p: Plan, g: Graph, order: seq<int>, alignment: nat, pending: set<int>)
    requires Inv(p, KindsOf(g), alignment, pending) && Covers(p, g)
    requires HasRoom(p, g, alignment, pending)
    requires Tensors(order, g) && Elements(order) <= pending
    requires NoRepeats(order)
    ensures Inv(PlaceAll(p, g, order, alignment), KindsOf(g), alignment, pending - Elements(order))
    ensures HasRoom(PlaceAll(p, g, order, alignment), g, alignment, pending - Elements(order))
    ensures PlaceAll(p, g, order, alignment).rwHigh >= p.rwHigh
    ensures PlaceAll(p, g, order, alignment).persistentHigh >= p.persistentHigh
  {
    if order == [] {
      assert pending - Elements(order) == pending;
    } else {
      var n := |order| - 1;
      assert order == order[..n] + [order[n]];
      PlaceAllKeepsInv(p, g, order[..n], alignment, pending);
      var q, left := PlaceAll(p, g, order[..n], alignment), pending - Elements(order[..n]);
      PlaceKeepsRoom(q, g, alignment, left, order[n]);
      PlaceKeepsInv(q, g, alignment, left, order[n]);
      assert pending - Elements(order) == left - {order[n]};
    }
  }

  /** Executing a range keeps the invariant, whichever order the sort leaves. */
  lemma ExecuteKeepsInv(p: Plan, g: Graph, order: seq<int>, alignment: nat)
    requires Inv(p, KindsOf(g), alignment, {}) && Covers(p, g)
    requires HasRoom(p, g, alignment, Elements(order))
    requires Tensors(order, g)
    requires NoRepeats(order)
    ensures Inv(PlaceAll(DropAll(p, g, order), g, order, alignment), KindsOf(g), alignment, {})
  {
    DropAllKeepsInv(p, g, order, alignment);
    PlaceAllKeepsInv(DropAll(p, g, order), g, order, alignment, Elements(order));
    assert Elements(order) - Elements(order) == {};
  }

  lemma RoomForAll(p: Plan, g: Graph, order: seq<int>, alignment: nat)
    requires Tensors(order, g) && Covers(p, g)
    requires p.rwHigh + TotalRoom(g, alignment) < SIZE_MAX && p.persistentHigh + TotalRoom(g, alignment) < SIZE_MAX
    ensures HasRoom(p, g, alignment, Elements(order))
    ensures HasRoom(DropAll(p, g, order), g, alignment, Elements(order))
  {
    RoomGrows(g, alignment, Elements(order), set t | 0 <= t < |g.tensors| && g.IsTensor(t), |g.tensors|);
  }

  // ----- Who moves ------------------------------------------------------------------------------

  lemma {:induction false} PlaceAllLeaves(p: Plan, g: Graph, order: seq<int>, alignment: nat, t: int)
    requires 0 < alignment && Covers(p, g) && Tensors(order, g) && 0 <= t < |g.tensors| && t !in order
    ensures PlaceAll(p, g, order, alignment).allocs[t] == p.allocs[t]
  {
    if order != [] {
      assert order[|order| - 1] in order;
      PlaceAllLeaves(p, g, order[..|order| - 1], alignment, t);
    }
  }

  /** What is placed is recorded with the tensor's size and lifetime. */
  ghost predicate RecordedAs(a: Alloc, p: Plan, g: Graph, t: int)
    requires Covers(p, g) && 0 <= t < |g.tensors|
  {
    && a.size == g.tensors[t].bytes && a.tensor == t && a.firstNode == p.allocNode[t]
    && a.lastNode == if g.tensors[t].kind == ArenaRw then p.deallocNode[t] else NOT_ASSIGNED
  }

  lemma {:induction false} PlaceAllRecords(p: Plan, g: Graph, order: seq<int>, alignment: nat, t: int)
    requires 0 < alignment <= ARENA_ALIGNMENT && Covers(p, g) && Tensors(order, g) && NoRepeats(order)
    requires t in order && 0 <= t < |g.tensors| && g.tensors[t].kind != Other
    ensures RecordedAs(PlaceAll(p, g, order, alignment).allocs[t], p, g, t)
  {
    var n := |order| - 1;
    if t != order[n] {
      assert order == order[..n] + [order[n]];
      PlaceAllRecords(p, g, order[..n], alignment, t);
    }
  }

  /** Executing `[first, last]` never moves a tensor whose alloc node lies outside the range. */
  lemma OutOfRangeStays(p: Plan, g: Graph, order: seq<int>, first: int, last: int, alignment: nat, t: int)
    requires 0 < alignment && Covers(p, g) && PlacementOrder(order, p, g, first, last)
    requires 0 <= t < |g.tensors| && !(first <= p.allocNode[t] <= last)
    ensures PlaceAll(DropAll(p, g, order), g, order, alignment).allocs[t] == p.allocs[t]
  {
    PlaceAllLeaves(DropAll(p, g, order), g, order, alignment, t);
  }

  // ----- Resetting after a node ------------------------------------------------------------------

  function ResetTensor(p: Plan, g: Graph, node: int, t: int): Plan
    requires 0 <= t < |p.allocs| && t < |g.tensors|
  {
    if p.allocs[t].firstNode > node && p.allocs[t].size > 0 && g.tensors[t].kind == ArenaRw then
      DropTensor(p, g, t).(allocs := p.allocs[t := RESET_ALLOC])
    else p
  }

  function ResetAfter(p: Plan, g: Graph, node: int, n: nat): (r: Plan)
    requires n <= |p.allocs| <= |g.tensors|
    ensures |r.allocs| == |p.allocs|
  {
    if n == 0 then p else ResetTensor(ResetAfter(p, g, node, n - 1), g, node, n - 1)
  }

  /** A reset forgets exactly the shared tensors that come alive after `node`. */
  lemma {:induction false} ResetAfterRecords(p: Plan, g: Graph, node: int, n: nat)
    requires n <= |p.allocs| <= |g.tensors|
    ensures var r := ResetAfter(p, g, node, n);
            && r == p.(allocs := r.allocs, rw := r.rw)
            && forall t :: 0 <= t < |p.allocs| ==>
                 r.allocs[t] ==
                   if t < n && g.tensors[t].kind == ArenaRw && p.allocs[t].size > 0 && p.allocs[t].firstNode > node
                   then RESET_ALLOC else p.allocs[t]
  {
    if n > 0 {
      ResetAfterRecords(p, g, node, n - 1);
    }
  }

  lemma ResetTensorKeepsInv(p: Plan, kinds: seq<AllocationType>, g: Graph, alignment: nat, node: int, t: int)
    requires Inv(p, kinds, alignment, {}) && 0 <= t < |p.allocs| <= |g.tensors| && Agrees(kinds, g)
    ensures Inv(ResetTensor(p, g, node, t), kinds, alignment, {})
  {
    var q := ResetTensor(p, g, node, t);
    assert RecordIsEntry(p, kinds, {}, t);
    if q != p {
      RemovedIsSound(p, kinds, alignment, {}, t);
      RemoveTensorContents(p.rw, t);
      forall e | e in q.rw ensures IsRecord(q, kinds, {}, e) {
        assert IsRecord(p.(rw := q.rw), kinds, {} + {t}, e);
      }
      forall u | 0 <= u < |kinds| ensures RecordIsEntry(q, kinds, {}, u) {
        assert RecordIsEntry(p, kinds, {}, u);
      }
    }
  }

  lemma {:induction false} ResetAfterKeepsInv(p: Plan, kinds: seq<AllocationType>, g: Graph, alignment: nat,
                                              node: int, n: nat)
    requires Inv(p, kinds, alignment, {}) && n <= |p.allocs| <= |g.tensors| && Agrees(kinds, g)
    ensures Inv(ResetAfter(p, g, node, n), kinds, alignment, {})
  {
    if n > 0 {
      ResetAfterKeepsInv(p, kinds, g, alignment, node, n - 1);
      ResetTensorKeepsInv(ResetAfter(p, g, node, n - 1), kinds, g, alignment, node, n - 1);
    }
  }
}
