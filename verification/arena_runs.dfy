/** What holds of the planner's bookkeeping after any sequence of its calls. */
module ArenaRuns {
  import opened Basics
  import opened GraphInfo
  import opened MemoryArena
  import opened Lifetimes
  import opened ArenaPlan
  import opened BestFit

  /** The planner's calls. The graph may have gained tensors and changed sizes since the last call;
      `order` is how the sort left the tensors to place. Committing, releasing and acquiring memory
      leave the bookkeeping alone. */
  datatype Call =
    | PlanAllocations(g: Graph, allocNode: seq<int>, deallocNode: seq<int>)
    | ExecuteAllocations(g: Graph, first: int, last: int, order: seq<int>)
    | ResetAllocationsAfter(g: Graph, node: int)
    | Memory

  /** The plan, and the allocation types that its records were made for. */
  datatype Books = Books(plan: Plan, kinds: seq<AllocationType>)

  const NO_BOOKS := Books(Plan([], [], [], [], 0, [], 0), [])

  /** A call that the planner can serve, and what it leaves. Types of tensors are fixed between
      plans. */
  ghost predicate Does(b: Books, c: Call, r: Books, alignment: nat)
    requires alignment > 0
  {
    match c
    case PlanAllocations(g, allocNode, deallocNode) =>
      r == Books(Plan(seq(|g.tensors|, _ => RESET_ALLOC), allocNode, deallocNode, [], 0, [], 0), KindsOf(g))
    case ExecuteAllocations(g, first, last, order) =>
      && Agrees(b.kinds, g) && |b.plan.allocs| <= |g.tensors|
      && b.plan.rwHigh + TotalRoom(g, alignment) < SIZE_MAX
      && b.plan.persistentHigh + TotalRoom(g, alignment) < SIZE_MAX
      && var prepared := Prepared(b.plan, g, first, last);
         && PlacementOrder(order, prepared, g, first, last)
         && r == Books(PlaceAll(DropAll(prepared, g, order), g, order, alignment), KindsOf(g))
    case ResetAllocationsAfter(g, node) =>
      && Agrees(b.kinds, g) && |b.plan.allocs| <= |g.tensors|
      && r == Books(ResetAfter(b.plan, g, node, |b.plan.allocs|), b.kinds)
    case Memory => r == b
  }

  /** `books[k]` is what the first `k` calls of a new planner leave. */
  ghost predicate Run(books: seq<Books>, calls: seq<Call>, alignment: nat)
    requires alignment > 0
  {
    && |books| == |calls| + 1 && books[0] == NO_BOOKS
    && forall k :: 0 <= k < |calls| ==> Does(books[k], calls[k], books[k + 1], alignment)
  }

  /** The books satisfy what every step keeps. */
  ghost predicate Sound(b: Books, alignment: nat) { Inv(b.plan, b.kinds, alignment, {}) }

  lemma ExecutionKeeps(b: Books, g: Graph, first: int, last: int, order: seq<int>, r: Books, alignment: nat)
    requires alignment > 0 && Sound(b, alignment) && Does(b, ExecuteAllocations(g, first, last, order), r, alignment)
    ensures Sound(r, alignment)
  {
    var grown, prepared := Grown(b.plan, |g.tensors|), Prepared(b.plan, g, first, last);
    GrowKeepsInv(b.plan, b.kinds, g, alignment);
    NodesDoNotMatter(grown, prepared, KindsOf(g), alignment, {});
    RoomForAll(prepared, g, order, alignment);
    ExecuteKeepsInv(prepared, g, order, alignment);
  }

  lemma CallKeeps(b: Books, c: Call, r: Books, alignment: nat)
    requires alignment > 0 && Sound(b, alignment) && Does(b, c, r, alignment)
    ensures Sound(r, alignment)
  {
    match c {
      case PlanAllocations(g, _, _) =>
        assert forall t :: 0 <= t < |g.tensors| ==> RecordIsEntry(r.plan, r.kinds, {}, t);
      case ExecuteAllocations(g, first, last, order) =>
        ExecutionKeeps(b, g, first, last, order, r, alignment);
      case ResetAllocationsAfter(g, node) =>
        ResetAfterKeepsInv(b.plan, b.kinds, g, alignment, node, |b.plan.allocs|);
      case Memory =>
    }
  }

  lemma {:induction false} RunKeeps(books: seq<Books>, calls: seq<Call>, alignment: nat, k: nat)
    requires alignment > 0 && Run(books, calls, alignment) && k < |books|
    ensures Sound(books[k], alignment)
  {
    if k > 0 {
      RunKeeps(books, calls, alignment, k - 1);
      assert Does(books[k - 1], calls[k - 1], books[k], alignment);
      CallKeeps(books[k - 1], calls[k - 1], books[k], alignment);
    }
  }

  /** After any sequence of calls, entries are sorted by offset; a shared tensor has exactly one
      entry when its record is non-empty, and none otherwise; and two recorded tensors of one arena
      whose node intervals meet lie in disjoint, aligned bytes. */
  lemma EveryRunIsSafe(books: seq<Books>, calls: seq<Call>, alignment: nat, k: nat)
    requires alignment > 0 && Run(books, calls, alignment) && k < |books|
    ensures var p, kinds := books[k].plan, books[k].kinds;
            && SortedByOffset(p.rw) && SortedByOffset(p.persistent) && |kinds| == |p.allocs|
            && (forall t :: 0 <= t < |kinds| && kinds[t] == ArenaRw ==>
                  Occurrences(p.rw, t) == if p.allocs[t].size != 0 then 1 else 0)
            && (forall t :: 0 <= t < |kinds| ==> p.allocs[t].offset % alignment == 0)
            && (forall t, u :: 0 <= t < |kinds| && 0 <= u < |kinds| && t != u && Meet(p, kinds, t, u) ==>
                  DisjointBytes(p.allocs[t], p.allocs[u]))
  {
    RunKeeps(books, calls, alignment, k);
    var p, kinds := books[k].plan, books[k].kinds;
    forall t | 0 <= t < |kinds| && kinds[t] == ArenaRw
      ensures Occurrences(p.rw, t) == if p.allocs[t].size != 0 then 1 else 0
    {
      OneEntryPerTensor(p, kinds, alignment, t);
    }
    forall t | 0 <= t < |kinds| ensures p.allocs[t].offset % alignment == 0 {
      assert RecordIsEntry(p, kinds, {}, t);
    }
    forall t, u | 0 <= t < |kinds| && 0 <= u < |kinds| && t != u && Meet(p, kinds, t, u)
      ensures DisjointBytes(p.allocs[t], p.allocs[u])
    {
      LiveTensorsAreDisjoint(p, kinds, alignment, t, u);
    }
  }

  /** Two non-empty records of one arena that are in use at a common node; the persistent arena keeps
      its tensors in use to the end. */
  ghost predicate Meet(p: Plan, kinds: seq<AllocationType>, t: int, u: int)
    requires |kinds| == |p.allocs| && 0 <= t < |kinds| && 0 <= u < |kinds|
  {
    && p.allocs[t].size != 0 && p.allocs[u].size != 0 && kinds[t] == kinds[u]
    && match kinds[t]
       case ArenaRw => p.allocs[t].InUse(p.allocs[u].firstNode, p.allocs[u].lastNode)
       case ArenaRwPersistent => p.allocs[t].firstNode <= NOT_ASSIGNED && p.allocs[u].firstNode <= NOT_ASSIGNED
       case Other => false
  }

  // ----- Where tensors are placed -------------------------------------------------------------------

  /** The plan when tensor `order[j]` is about to be placed. */
  function PlacedBefore(b: Books, g: Graph, first: int, last: int, order: seq<int>, alignment: nat, j: nat): (p: Plan)
    requires alignment > 0 && j <= |order|
    requires Covers(Prepared(b.plan, g, first, last), g) && Tensors(order, g)
    ensures Covers(p, g)
  {
    PlaceAll(DropAll(Prepared(b.plan, g, first, last), g, order), g, order[..j], alignment)
  }

  /** A tensor's placement takes a shortest gap of its arena, if any gap takes it. */
  ghost predicate PlacedBestFit(p: Plan, g: Graph, t: int, alignment: nat)
    requires alignment > 0 && Covers(p, g) && 0 <= t < |g.tensors|
  {
    match g.tensors[t].kind
    case ArenaRw =>
      TakesBestFit(p.rw, Request(alignment, g.tensors[t].bytes, t, p.allocNode[t], p.deallocNode[t]))
    case ArenaRwPersistent =>
      TakesBestFit(p.persistent, Request(alignment, g.tensors[t].bytes, t, p.allocNode[t], NOT_ASSIGNED))
    case Other => true
  }

  lemma InvFitsBest(p: Plan, g: Graph, t: int, alignment: nat, pending: set<int>)
    requires Inv(p, KindsOf(g), alignment, pending) && HasRoom(p, g, alignment, pending)
    requires Covers(p, g) && 0 <= t < |g.tensors|
    ensures PlacedBestFit(p, g, t, alignment)
  {
    SuitedPlansFitBest(p.rw, Request(alignment, g.tensors[t].bytes, t, p.allocNode[t], p.deallocNode[t]));
    SuitedPlansFitBest(p.persistent, Request(alignment, g.tensors[t].bytes, t, p.allocNode[t], NOT_ASSIGNED));
  }

  /** A tensor's record starts in a gap of its arena, if a gap takes it, and otherwise at the lowest
      aligned place above the tensors it lives together with. */
  ghost predicate PlacedLow(p: Plan, g: Graph, t: int, alignment: nat)
    requires alignment > 0 && Covers(p, g) && 0 <= t < |g.tensors|
  {
    var at := PlaceTensor(p, g, t, alignment).allocs[t].offset;
    match g.tensors[t].kind
    case ArenaRw =>
      GoesTo(p.rw, Request(alignment, g.tensors[t].bytes, t, p.allocNode[t], p.deallocNode[t]), at)
    case ArenaRwPersistent =>
      GoesTo(p.persistent, Request(alignment, g.tensors[t].bytes, t, p.allocNode[t], NOT_ASSIGNED), at)
    case Other => true
  }

  lemma InvGoesLow(p: Plan, g: Graph, t: int, alignment: nat, pending: set<int>)
    requires Inv(p, KindsOf(g), alignment, pending) && HasRoom(p, g, alignment, pending)
    requires Covers(p, g) && 0 <= t < |g.tensors| && g.tensors[t].bytes > 0 && alignment <= ARENA_ALIGNMENT
    ensures PlacedLow(p, g, t, alignment)
  {
    ChooseOffsetGoesThere(
      p.rw, Request(alignment, g.tensors[t].bytes, t, p.allocNode[t], p.deallocNode[t]), p.rwHigh);
    ChooseOffsetGoesThere(
      p.persistent, Request(alignment, g.tensors[t].bytes, t, p.allocNode[t], NOT_ASSIGNED), p.persistentHigh);
  }

  /** What is known when any sequence of calls is about to place tensor `order[j]`. */
  lemma InvBeforePlacing(books: seq<Books>, calls: seq<Call>, alignment: nat, k: nat, j: nat)
    requires alignment > 0 && Run(books, calls, alignment) && k < |calls| && calls[k].ExecuteAllocations?
    requires j < |calls[k].order|
    ensures var g, order := calls[k].g, calls[k].order;
            && Covers(Prepared(books[k].plan, g, calls[k].first, calls[k].last), g) && Tensors(order, g)
            && var p := PlacedBefore(books[k], g, calls[k].first, calls[k].last, order, alignment, j);
               Inv(p, KindsOf(g), alignment, Elements(order) - Elements(order[..j]))
               && HasRoom(p, g, alignment, Elements(order) - Elements(order[..j]))
  {
    RunKeeps(books, calls, alignment, k);
    var b, g, order := books[k], calls[k].g, calls[k].order;
    assert Does(b, calls[k], books[k + 1], alignment);
    var grown, prepared := Grown(b.plan, |g.tensors|), Prepared(b.plan, g, calls[k].first, calls[k].last);
    GrowKeepsInv(b.plan, b.kinds, g, alignment);
    NodesDoNotMatter(grown, prepared, KindsOf(g), alignment, {});
    RoomForAll(prepared, g, order, alignment);
    DropAllKeepsInv(prepared, g, order, alignment);
    PlaceAllKeepsInv(DropAll(prepared, g, order), g, order[..j], alignment, Elements(order));
  }

  /** Every tensor that any sequence of calls places is placed best fit, and as low as it may go. */
  lemma EveryPlacementFitsBest(books: seq<Books>, calls: seq<Call>, alignment: nat, k: nat, j: nat)
    requires alignment > 0 && Run(books, calls, alignment) && k < |calls| && calls[k].ExecuteAllocations?
    requires j < |calls[k].order|
    ensures var g, order := calls[k].g, calls[k].order;
            && Covers(Prepared(books[k].plan, g, calls[k].first, calls[k].last), g) && Tensors(order, g)
            && var p := PlacedBefore(books[k], g, calls[k].first, calls[k].last, order, alignment, j);
               && PlacedBestFit(p, g, order[j], alignment)
               && (g.tensors[order[j]].bytes > 0 && alignment <= ARENA_ALIGNMENT ==>
                     PlacedLow(p, g, order[j], alignment))
  {
    InvBeforePlacing(books, calls, alignment, k, j);
    var g, order := calls[k].g, calls[k].order;
    var p := PlacedBefore(books[k], g, calls[k].first, calls[k].last, order, alignment, j);
    var pending := Elements(order) - Elements(order[..j]);
    InvFitsBest(p, g, order[j], alignment, pending);
    if g.tensors[order[j]].bytes > 0 && alignment <= ARENA_ALIGNMENT {
      InvGoesLow(p, g, order[j], alignment, pending);
    }
  }
}
