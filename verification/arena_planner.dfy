/** The memory planner: lifetimes by reference counting, then offsets in two arenas, then
    addresses. Tensor data pointers are kept in `pointers`; 0 is the null pointer. */
module ArenaPlanner {
  import opened Basics
  import opened GraphInfo
  import opened MemoryArena
  import opened Lifetimes
  import opened ArenaPlan
  import ArenaExecution
  import ArenaRuns

  /** Stands for the library's sort: leaves the elements in some order that the comparator allows. */
  method SortForPlacement(p: Plan, g: Graph, tensors: seq<int>) returns (r: seq<int>)
    requires Covers(p, g) && Tensors(tensors, g) && NoRepeats(tensors)
    ensures Tensors(r, g) && NoRepeats(r)
    ensures forall t :: t in r <==> t in tensors
    ensures forall i, j :: 0 <= i < j < |r| ==> !Before(p, g, r[j], r[i])
  {
    r := [];
    for n := 0 to |tensors|
      invariant Tensors(r, g) && NoRepeats(r)
      invariant forall t :: t in r <==> t in tensors[..n]
      invariant forall i, j :: 0 <= i < j < |r| ==> !Before(p, g, r[j], r[i])
    {
      var t := tensors[n];
      assert tensors[..n + 1] == tensors[..n] + [t];
      var k := 0;
      while k < |r| && !Before(p, g, t, r[k])
        invariant 0 <= k <= |r|
        invariant forall i :: 0 <= i < k ==> !Before(p, g, t, r[i])
      {
        k := k + 1;
      }
      InsertAdds(r, k, t);
      InsertKeepsOrder(p, g, r, k, t);
      r := r[..k] + [t] + r[k..];
    }
    assert tensors[..|tensors|] == tensors;
  }

  lemma InsertAdds(r: seq<int>, k: nat, t: int)
    requires NoRepeats(r) && k <= |r| && t !in r
    ensures var s := r[..k] + [t] + r[k..];
            NoRepeats(s) && forall u :: u in s <==> u == t || u in r
  {
    var s := r[..k] + [t] + r[k..];
    assert r == r[..k] + r[k..];
    forall i, j | 0 <= i < j < |s| ensures s[i] != s[j] {
      assert i < k ==> s[i] == r[i];
      assert i > k ==> s[i] == r[i - 1];
      assert j < k ==> s[j] == r[j];
      assert j > k ==> s[j] == r[j - 1];
    }
  }

  lemma InsertKeepsOrder(p: Plan, g: Graph, r: seq<int>, k: nat, t: int)
    requires Covers(p, g) && Tensors(r, g) && k <= |r| && 0 <= t < |g.tensors|
    requires forall i, j :: 0 <= i < j < |r| ==> !Before(p, g, r[j], r[i])
    requires forall i :: 0 <= i < k ==> !Before(p, g, t, r[i])
    requires k < |r| ==> Before(p, g, t, r[k])
    requires Tensors(r[..k] + [t] + r[k..], g)
    ensures var s := r[..k] + [t] + r[k..];
            forall i, j :: 0 <= i < j < |s| ==> !Before(p, g, s[j], s[i])
  {
    var s := r[..k] + [t] + r[k..];
    forall j | k <= j < |r| ensures !Before(p, g, r[j], t) {
      BeforeIsStrictWeakOrder(p, g, r[j], t, r[k]);
    }
    forall i, j | 0 <= i < j < |s| ensures !Before(p, g, s[j], s[i]) {
      assert s[i] == if i < k then r[i] else if i == k then t else r[i - 1];
      assert s[j] == if j < k then r[j] else if j == k then t else r[j - 1];
    }
  }

  /** Tensor `t`'s record is reset and its pointer null, or both are as before. */
  ghost predicate ForgetsAt(before: seq<Alloc>, pointers: map<int, nat>, after: seq<Alloc>, pointers': map<int, nat>,
                            t: int)
    requires |before| == |after|
  {
    if 0 <= t < |after| && before[t] != after[t] then after[t] == RESET_ALLOC && t in pointers' && pointers'[t] == 0
    else (t in pointers' <==> t in pointers) && (t in pointers ==> pointers'[t] == pointers[t])
  }

  /** The pointers of the records that were reset are null now, all others as before. */
  ghost predicate Forgets(before: seq<Alloc>, pointers: map<int, nat>, after: seq<Alloc>, pointers': map<int, nat>) {
    |before| == |after| && forall t :: ForgetsAt(before, pointers, after, pointers', t)
  }

  lemma ForgetsNothing(s: seq<Alloc>, p: map<int, nat>)
    ensures Forgets(s, p, s, p)
  {
  }

  lemma ForgetsOne(s: seq<Alloc>, p: map<int, nat>, i: nat)
    requires i < |s| && s[i] != RESET_ALLOC
    ensures Forgets(s, p, s[i := RESET_ALLOC], p[i := 0])
  {
  }

  lemma ForgetsMore(s: seq<Alloc>, p: map<int, nat>, s': seq<Alloc>, p': map<int, nat>, s'': seq<Alloc>,
                    p'': map<int, nat>)
    requires Forgets(s, p, s', p') && Forgets(s', p', s'', p'')
    ensures Forgets(s, p, s'', p'')
  {
    forall t ensures ForgetsAt(s, p, s'', p'', t) {
      assert ForgetsAt(s, p, s', p', t) && ForgetsAt(s', p', s'', p'', t);
    }
  }

  class ArenaPlanner {
    const options: Options
    const tensorAlignment: nat
    const arena: SimpleMemoryArena
    const persistentArena: SimpleMemoryArena
    var allocs: seq<Alloc>
    var allocNode: seq<int>
    var deallocNode: seq<int>
    var pointers: map<int, nat>
    // The allocation types the records were made for.
    ghost var kinds: seq<AllocationType>

    ghost function State(): Plan
      reads this, arena, persistentArena
    {
      Plan(allocs, allocNode, deallocNode, arena.orderedAllocs, arena.highWaterMark,
           persistentArena.orderedAllocs, persistentArena.highWaterMark)
    }

    ghost function Books(): ArenaRuns.Books
      reads this, arena, persistentArena
    {
      ArenaRuns.Books(State(), kinds)
    }

    ghost predicate Valid()
      reads this, arena, arena.buffer, persistentArena, persistentArena.buffer
    {
      && arena != persistentArena
      && (arena.buffer != null ==> arena.buffer != persistentArena.buffer)
      && arena.Valid() && arena.arenaAlignment == ARENA_ALIGNMENT
      && persistentArena.Valid() && persistentArena.arenaAlignment == ARENA_ALIGNMENT
      && Inv(State(), kinds, tensorAlignment, {})
    }

    constructor (preserveInputs: bool, preserveIntermediates: bool, tensorAlignment: nat)
      requires tensorAlignment > 0
      ensures Valid() && fresh(arena) && fresh(persistentArena)
      ensures options == Options(preserveInputs, preserveIntermediates) && this.tensorAlignment == tensorAlignment
      ensures Books() == ArenaRuns.NO_BOOKS && pointers == map[]
      ensures arena.buffer == null && persistentArena.buffer == null
    {
      options := Options(preserveInputs, preserveIntermediates);
      this.tensorAlignment := tensorAlignment;
      arena := new SimpleMemoryArena(ARENA_ALIGNMENT);
      persistentArena := new SimpleMemoryArena(ARENA_ALIGNMENT);
      allocs, allocNode, deallocNode, pointers, kinds := [], [], [], map[], [];
    }

    method ResetAllocations(g: Graph) returns (status: Status)
      requires Valid()
      modifies this`allocs, this`kinds, arena, persistentArena
      ensures Valid() && status == Ok
      ensures State() == Plan(seq(|g.tensors|, _ => RESET_ALLOC), old(allocNode), old(deallocNode), [], 0, [], 0)
      ensures kinds == KindsOf(g)
      ensures arena.buffer == old(arena.buffer) && persistentArena.buffer == old(persistentArena.buffer)
    {
      status := arena.ClearPlan();
      status := persistentArena.ClearPlan();
      allocs := seq(|g.tensors|, _ => RESET_ALLOC);
      kinds := KindsOf(g);
    }

    /** Every planned lifetime is exact, whatever was planned before. */
    method PlanAllocations(g: Graph) returns (status: Status)
      requires Valid() && g.InRange() && |g.nodes| < NOT_ASSIGNED
      modifies this`allocs, this`allocNode, this`deallocNode, this`kinds, arena, persistentArena
      ensures Valid() && status == Ok
      ensures ExactLifetimes(g, options, allocNode, deallocNode)
      ensures State() == Plan(seq(|g.tensors|, _ => RESET_ALLOC), allocNode, deallocNode, [], 0, [], 0)
      ensures kinds == KindsOf(g)
      ensures ArenaRuns.Does(old(Books()), ArenaRuns.PlanAllocations(g, allocNode, deallocNode), Books(),
                             tensorAlignment)
      ensures arena.buffer == old(arena.buffer) && persistentArena.buffer == old(persistentArena.buffer)
    {
      status := ResetAllocations(g);
      ghost var reset := State();
      status, allocNode, deallocNode := PlanLifetimes(g, options);
      NodesDoNotMatter(reset, State(), kinds, tensorAlignment, {});
    }

    /** Erases the entry of a shared tensor, its record and its data pointer. */
    method Forget(g: Graph, i: nat) returns (status: Status)
      requires arena.Valid() && arena != persistentArena && i < |allocs| <= |g.tensors|
      requires g.tensors[i].kind == ArenaRw && allocs[i].size > 0 && allocs[i].tensor == i
      requires Occurrences(arena.orderedAllocs, i) <= 1
      modifies this`allocs, this`pointers, arena`orderedAllocs
      ensures arena.Valid() && status == Ok
      ensures State() == DropTensor(old(State()), g, i).(allocs := old(allocs)[i := RESET_ALLOC])
      ensures pointers == old(pointers)[i := 0]
    {
      status := arena.Deallocate(allocs[i]);
      if status == Ok {
        allocs, pointers := allocs[i := RESET_ALLOC], pointers[i := 0];
      }
    }

    /** One turn of the loop below. */
    method ResetAllocationAfter(g: Graph, node: int, i: nat) returns (status: Status)
      requires Valid() && Agrees(kinds, g) && i < |allocs| <= |g.tensors|
      modifies this`allocs, this`pointers, arena`orderedAllocs
      ensures Valid() && status == Ok
      ensures State() == ResetTensor(old(State()), g, node, i)
      ensures Forgets(old(allocs), old(pointers), allocs, pointers)
    {
      ghost var before := State();
      ResetTensorKeepsInv(before, kinds, g, tensorAlignment, node, i);
      assert RecordIsEntry(before, kinds, {}, i);
      AtMostOne(arena.orderedAllocs, i);
      ForgetsNothing(allocs, pointers);
      status := Ok;
      if allocs[i].firstNode > node && allocs[i].size > 0 && g.tensors[i].kind == ArenaRw {
        ForgetsOne(allocs, pointers, i);
        status := Forget(g, i);
        assert State() == ResetTensor(before, g, node, i);
      }
    }

    /** Forgets shared tensors that come alive after `node`; nothing else moves. */
    method ResetAllocationsAfter(g: Graph, node: int) returns (status: Status)
      requires Valid() && Agrees(kinds, g) && |allocs| <= |g.tensors|
      modifies this`allocs, this`pointers, arena`orderedAllocs
      ensures Valid() && status == Ok
      ensures State() == ResetAfter(old(State()), g, node, |old(allocs)|)
      ensures ArenaRuns.Does(old(Books()), ArenaRuns.ResetAllocationsAfter(g, node), Books(), tensorAlignment)
      ensures Forgets(old(allocs), old(pointers), allocs, pointers)
    {
      ghost var before := State();
      for i := 0 to |allocs|
        invariant State() == ResetAfter(before, g, node, i)
        invariant Valid() && kinds == old(kinds)
        invariant Forgets(before.allocs, old(pointers), allocs, pointers)
      {
        ghost var s, p := allocs, pointers;
        status := ResetAllocationAfter(g, node, i);
        ForgetsMore(before.allocs, old(pointers), s, p, allocs, pointers);
      }
      status := Ok;
    }

    /** Which tensors to place, in an order the library's sort may leave. */
    method CreateTensorAllocationVector(g: Graph, first: int, last: int) returns (order: seq<int>)
      requires Covers(State(), g)
      ensures PlacementOrder(order, State(), g, first, last)
      ensures Tensors(order, g) && LargestFirst(order, g, allocNode, deallocNode)
    {
      order := [];
      for i := 0 to |g.tensors|
        invariant Tensors(order, g) && NoRepeats(order)
        invariant forall t :: t in order <==> 0 <= t < i && first <= allocNode[t] <= last
      {
        if first <= allocNode[i] <= last {
          order := order + [i];
        }
      }
      var p := Plan(allocs, allocNode, deallocNode, [], 0, [], 0);
      order := SortForPlacement(p, g, order);
      forall i, j | 0 <= i < j < |order| ensures !Before(State(), g, order[j], order[i]) {
        assert !Before(p, g, order[j], order[i]);
      }
      PlacementIsLargestFirst(order, State(), g, first, last);
    }

    /** One turn of the first loop below. */
    method DropForPlacement(g: Graph, t: int) returns (status: Status)
      requires arena.Valid() && arena != persistentArena && 0 <= t < |allocs| == |g.tensors|
      requires OneEach(arena.orderedAllocs)
      modifies arena`orderedAllocs
      ensures arena.Valid() && status == Ok
      ensures State() == DropTensor(old(State()), g, t)
    {
      status := Ok;
      if g.tensors[t].kind == ArenaRw && allocs[t].size != 0 {
        AtMostOne(arena.orderedAllocs, allocs[t].tensor);
        status := arena.Deallocate(allocs[t]);
      }
    }

    /** One turn of the second loop below. */
    method PlaceOne(g: Graph, t: int) returns (status: Status)
      requires arena.Valid() && arena.arenaAlignment == ARENA_ALIGNMENT
      requires persistentArena.Valid() && persistentArena.arenaAlignment == ARENA_ALIGNMENT
      requires arena != persistentArena && tensorAlignment > 0
      requires Covers(State(), g) && 0 <= t < |g.tensors|
      requires arena.highWaterMark + tensorAlignment + g.tensors[t].bytes < SIZE_MAX
      requires persistentArena.highWaterMark + tensorAlignment + g.tensors[t].bytes < SIZE_MAX
      modifies this`allocs, arena`orderedAllocs, arena`highWaterMark
      modifies persistentArena`orderedAllocs, persistentArena`highWaterMark
      ensures arena.Valid() && persistentArena.Valid()
      ensures State() == PlaceTensor(old(State()), g, t, tensorAlignment)
      ensures status == if tensorAlignment > ARENA_ALIGNMENT && g.tensors[t].kind != Other then Error else Ok
    {
      status := Ok;
      var alloc;
      if g.tensors[t].kind == ArenaRw {
        status, alloc := arena.Allocate(
          Request(tensorAlignment, g.tensors[t].bytes, t, allocNode[t], deallocNode[t]), allocs[t]);
        allocs := allocs[t := alloc];
      }
      if g.tensors[t].kind == ArenaRwPersistent {
        status, alloc := persistentArena.Allocate(
          Request(tensorAlignment, g.tensors[t].bytes, t, allocNode[t], NOT_ASSIGNED), allocs[t]);
        allocs := allocs[t := alloc];
      }
    }

    /** The first loop of `CalculateAllocations`. */
    method DropForPlacements(g: Graph, order: seq<int>) returns (status: Status)
      requires Valid() && kinds == KindsOf(g) && Tensors(order, g)
      modifies arena`orderedAllocs
      ensures arena.Valid() && status == Ok
      ensures State() == DropAll(old(State()), g, order)
    {
      status := Ok;
      ghost var before := State();
      for k := 0 to |order|
        invariant arena.Valid() && status == Ok
        invariant State() == DropAll(before, g, order[..k])
      {
        DropAllKeepsInv(before, g, order[..k], tensorAlignment);
        assert order[..k + 1][..k] == order[..k];
        status := DropForPlacement(g, order[k]);
      }
      assert order[..|order|] == order;
    }

    /** One more tensor placed, with what that needs to know. */
    method PlaceNext(g: Graph, order: seq<int>, k: nat, ghost before: Plan) returns (status: Status)
      requires arena.Valid() && arena.arenaAlignment == ARENA_ALIGNMENT
      requires persistentArena.Valid() && persistentArena.arenaAlignment == ARENA_ALIGNMENT
      requires arena != persistentArena && Covers(before, g) && Tensors(order, g) && NoRepeats(order) && k < |order|
      requires Inv(before, KindsOf(g), tensorAlignment, Elements(order))
      requires HasRoom(before, g, tensorAlignment, Elements(order))
      requires tensorAlignment > 0 && Covers(State(), g) && State() == PlaceAll(before, g, order[..k], tensorAlignment)
      modifies this`allocs, arena`orderedAllocs, arena`highWaterMark
      modifies persistentArena`orderedAllocs, persistentArena`highWaterMark
      ensures arena.Valid() && persistentArena.Valid()
      ensures Covers(State(), g) && State() == PlaceAll(before, g, order[..k + 1], tensorAlignment)
      ensures status == if tensorAlignment > ARENA_ALIGNMENT && g.tensors[order[k]].kind != Other then Error else Ok
    {
      assert order[k] in order && order[k] !in Elements(order[..k]);
      PlaceAllKeepsInv(before, g, order[..k], tensorAlignment, Elements(order));
      PlaceKeepsRoom(State(), g, tensorAlignment, Elements(order) - Elements(order[..k]), order[k]);
      assert order[..k + 1][..k] == order[..k];
      status := PlaceOne(g, order[k]);
    }

    /** The second loop of `CalculateAllocations`. */
    method PlaceInOrder(g: Graph, order: seq<int>) returns (status: Status)
      requires arena.Valid() && arena.arenaAlignment == ARENA_ALIGNMENT
      requires persistentArena.Valid() && persistentArena.arenaAlignment == ARENA_ALIGNMENT
      requires arena != persistentArena && Covers(State(), g) && Tensors(order, g) && NoRepeats(order)
      requires Inv(State(), KindsOf(g), tensorAlignment, Elements(order))
      requires HasRoom(State(), g, tensorAlignment, Elements(order))
      modifies this`allocs, arena`orderedAllocs, arena`highWaterMark
      modifies persistentArena`orderedAllocs, persistentArena`highWaterMark
      ensures arena.Valid() && persistentArena.Valid()
      ensures State() == PlaceAll(old(State()), g, order, tensorAlignment)
      ensures status == if tensorAlignment > ARENA_ALIGNMENT && exists t :: t in order && g.tensors[t].kind != Other
                        then Error else Ok
    {
      status := Ok;
      ghost var before := State();
      var k := 0;
      while k < |order| && status == Ok
        invariant 0 <= k <= |order|
        invariant arena.Valid() && persistentArena.Valid()
        invariant Covers(State(), g) && State() == PlaceAll(before, g, order[..k], tensorAlignment)
        invariant status == Ok ==>
                    tensorAlignment > ARENA_ALIGNMENT ==> forall j :: 0 <= j < k ==> g.tensors[order[j]].kind == Other
        invariant status == Error ==>
                    tensorAlignment > ARENA_ALIGNMENT && exists t :: t in order && g.tensors[t].kind != Other
      {
        status := PlaceNext(g, order, k, before);
        k := k + 1;
      }
      StoppedIsDone(before, g, order, k, tensorAlignment);
    }

    method CalculateAllocations(g: Graph, first: int, last: int) returns (status: Status, ghost order: seq<int>)
      requires Valid() && kinds == KindsOf(g) && Covers(State(), g)
      requires arena.highWaterMark + TotalRoom(g, tensorAlignment) < SIZE_MAX
      requires persistentArena.highWaterMark + TotalRoom(g, tensorAlignment) < SIZE_MAX
      modifies this`allocs, arena`orderedAllocs, arena`highWaterMark
      modifies persistentArena`orderedAllocs, persistentArena`highWaterMark
      ensures Valid()
      ensures PlacementOrder(order, old(State()), g, first, last)
      ensures State() == PlaceAll(DropAll(old(State()), g, order), g, order, tensorAlignment)
      ensures status == if tensorAlignment > ARENA_ALIGNMENT && exists t :: t in order && g.tensors[t].kind != Other
                        then Error else Ok
    {
      ghost var before := State();
      var tensorOrder := CreateTensorAllocationVector(g, first, last);
      order := tensorOrder;
      status := DropForPlacements(g, tensorOrder);
      RoomForAll(before, g, order, tensorAlignment);
      DropAllKeepsInv(before, g, order, tensorAlignment);
      ExecuteKeepsInv(before, g, order, tensorAlignment);
      PlaceAllKeepsInv(DropAll(before, g, order), g, order, tensorAlignment, Elements(order));
      status := PlaceInOrder(g, tensorOrder);
    }

    /** Where tensor `t`'s bytes are once both arenas are committed, or where they were. */
    function Address(t: int, kind: AllocationType): nat
      requires 0 <= t < |allocs|
      reads this, arena, persistentArena
    {
      var base := if kind == ArenaRw then arena.BasePointer() else persistentArena.BasePointer();
      if allocs[t].size == 0 then 0 else base + allocs[t].offset
    }

    /** Pointer updates: empty shared tensors and tensors of other kinds keep what they had. */
    predicate SetsPointer(t: int, kind: AllocationType)
      requires 0 <= t < |allocs|
      reads this
    {
      kind == ArenaRwPersistent || (kind == ArenaRw && allocs[t].size != 0)
    }

    /** Can tensor `t`'s pointer be set? Its arena must be committed and hold its range. */
    predicate Resolvable(t: int, kind: AllocationType)
      requires 0 <= t < |allocs|
      reads this, arena, arena.buffer, persistentArena, persistentArena.buffer
    {
      match kind
      case ArenaRw => allocs[t].size == 0 || (arena.committed && arena.BufferSize() >= allocs[t].End())
      case ArenaRwPersistent => persistentArena.committed && persistentArena.BufferSize() >= allocs[t].End()
      case Other => true
    }

    method ResolveTensorAllocation(g: Graph, t: int) returns (status: Status)
      requires Valid() && 0 <= t < |allocs| && t < |g.tensors|
      modifies this`pointers
      ensures status == if Resolvable(t, g.tensors[t].kind) then Ok else Error
      ensures pointers == if status == Ok && SetsPointer(t, g.tensors[t].kind)
                          then old(pointers)[t := Address(t, g.tensors[t].kind)] else old(pointers)
    {
      status := Ok;
      var pointer;
      if g.tensors[t].kind == ArenaRw && allocs[t].size != 0 {
        status, pointer := arena.ResolveAlloc(allocs[t]);
        if status == Error {
          return;
        }
        pointers := pointers[t := pointer];
      }
      if g.tensors[t].kind == ArenaRwPersistent {
        status, pointer := persistentArena.ResolveAlloc(allocs[t]);
        if status == Error {
          return;
        }
        pointers := pointers[t := pointer];
      }
    }

    /** In committed arenas every pointer can be set. */
    lemma CommittedResolves(g: Graph, t: int)
      requires Valid() && 0 <= t < |allocs| && t < |g.tensors| && Agrees(kinds, g)
      requires g.tensors[t].kind == ArenaRw ==> Committed(arena)
      requires g.tensors[t].kind == ArenaRwPersistent ==> Committed(persistentArena)
      ensures Resolvable(t, g.tensors[t].kind)
    {
      RecordsAreInside(State(), kinds, tensorAlignment, t);
    }

    method Commit(address: nat, persistentAddress: nat) returns (status: Status)
      requires Valid()
      modifies arena`committed, arena`buffer, arena`address, arena`alignedStart, arena`committedHigh
      modifies persistentArena`committed, persistentArena`buffer, persistentArena`address
      modifies persistentArena`alignedStart, persistentArena`committedHigh
      ensures Valid() && status == Ok
      ensures Committed(arena) && Committed(persistentArena)
      ensures arena.Holds(old(arena.CommittedBytes()))
      ensures persistentArena.Holds(old(persistentArena.CommittedBytes()))
    {
      status := arena.Commit(address);
      status := persistentArena.Commit(persistentAddress);
    }

    ghost predicate Committed(a: SimpleMemoryArena)
      reads a, a.buffer
    {
      && a.committed && a.buffer != null && a.arenaAlignment > 0
      && a.committedHigh == a.highWaterMark
      && a.alignedStart + a.highWaterMark <= a.buffer.Length
      && a.BasePointer() % a.arenaAlignment == 0
    }

    ghost function ArenaOf(kind: AllocationType): SimpleMemoryArena {
      if kind == ArenaRw then arena else persistentArena
    }

    ghost predicate IsAt(a: SimpleMemoryArena, pointer: nat, size: nat)
      reads a, a.buffer
    {
      a.buffer != null && a.address <= pointer && pointer + size <= a.address + a.buffer.Length
    }

    /** When the tensor alignment divides the arenas', a tensor's pointer is aligned, and its bytes lie
        wholly inside its arena's buffer. */
    lemma PointerIsGood(g: Graph, t: int)
      requires Valid() && kinds == KindsOf(g) && |g.tensors| == |allocs| && PointersAreSet(g)
      requires tensorAlignment > 0 && ARENA_ALIGNMENT % tensorAlignment == 0
      requires 0 <= t < |g.tensors| && g.tensors[t].kind != Other && allocs[t].size != 0
      ensures t in pointers && pointers[t] % tensorAlignment == 0
      ensures IsAt(ArenaOf(g.tensors[t].kind), pointers[t], allocs[t].size)
    {
      RecordsAreInside(State(), kinds, tensorAlignment, t);
      AddressesAlignedIff(ARENA_ALIGNMENT, tensorAlignment);
      assert PointerIsSet(t, g.tensors[t].kind);
      var a := ArenaOf(g.tensors[t].kind);
      assert AddressAligned(a.BasePointer(), allocs[t].offset, ARENA_ALIGNMENT, tensorAlignment);
    }

    /** And apart from those of every tensor of its arena in use together with it. */
    lemma PointersLieApart(g: Graph, t: int, u: int)
      requires Valid() && kinds == KindsOf(g) && |g.tensors| == |allocs| && PointersAreSet(g)
      requires 0 <= t < |g.tensors| && 0 <= u < |g.tensors| && t != u && g.tensors[t].kind != Other
      requires ArenaRuns.Meet(State(), kinds, t, u)
      ensures t in pointers && u in pointers
      ensures pointers[t] + allocs[t].size <= pointers[u] || pointers[u] + allocs[u].size <= pointers[t]
    {
      assert PointerIsSet(t, g.tensors[t].kind) && PointerIsSet(u, g.tensors[u].kind);
      LiveTensorsAreDisjoint(State(), kinds, tensorAlignment, t, u);
    }

    /** The tensor points at its bytes, at its offset from the aligned start of its arena's buffer. An
        empty persistent tensor points nowhere. */
    ghost predicate PointerIsSet(t: int, kind: AllocationType)
      requires 0 <= t < |allocs|
      reads this, arena, persistentArena
    {
      match kind
      case ArenaRw =>
        allocs[t].size != 0 ==>
          t in pointers && pointers[t] == arena.address + arena.alignedStart + allocs[t].offset
      case ArenaRwPersistent =>
        && t in pointers
        && pointers[t] == if allocs[t].size == 0 then 0
                          else persistentArena.address + persistentArena.alignedStart + allocs[t].offset
      case Other => true
    }

    /** Both arenas are committed, and every tensor with a record points at its bytes. */
    ghost predicate PointersAreSet(g: Graph)
      requires |g.tensors| <= |allocs|
      reads this, arena, arena.buffer, persistentArena, persistentArena.buffer
    {
      && Committed(arena) && Committed(persistentArena)
      && forall t :: 0 <= t < |g.tensors| ==> PointerIsSet(t, g.tensors[t].kind)
    }

    /** The pointers of tensors outside the arenas, and of empty shared ones, are those of `before`. */
    ghost predicate KeepsOtherPointers(g: Graph, before: map<int, nat>)
      requires |g.tensors| <= |allocs|
      reads this
    {
      forall t :: t in before && !(0 <= t < |g.tensors| && SetsPointer(t, g.tensors[t].kind)) ==>
        t in pointers && pointers[t] == before[t]
    }

    /** Registers temporaries, drops what is in range and places it. */
    method PlaceRange(g: Graph, first: int, last: int) returns (status: Status, ghost order: seq<int>)
      requires Valid() && Agrees(kinds, g) && g.InRange() && |allocs| <= |g.tensors|
      requires arena.highWaterMark + TotalRoom(g, tensorAlignment) < SIZE_MAX
      requires persistentArena.highWaterMark + TotalRoom(g, tensorAlignment) < SIZE_MAX
      modifies this`allocs, this`allocNode, this`deallocNode, this`kinds
      modifies arena`orderedAllocs, arena`highWaterMark, persistentArena`orderedAllocs, persistentArena`highWaterMark
      ensures Valid() && kinds == KindsOf(g) && Covers(State(), g)
      ensures ArenaRuns.Does(old(Books()), ArenaRuns.ExecuteAllocations(g, first, last, order), Books(),
                             tensorAlignment)
      ensures status == if tensorAlignment > ARENA_ALIGNMENT && exists t :: t in order && g.tensors[t].kind != Other
                        then Error else Ok
      ensures arena.CommittedBytes() == old(arena.CommittedBytes())
      ensures persistentArena.CommittedBytes() == old(persistentArena.CommittedBytes())
    {
      PrepareTensors(g, first, last);
      status, order := CalculateAllocations(g, first, last);
    }

    /** Points every tensor at its bytes, in arenas that are committed for the plan first. */
    method CommitAndResolve(g: Graph, address: nat, persistentAddress: nat) returns (status: Status)
      requires Valid() && kinds == KindsOf(g) && Covers(State(), g)
      modifies this`pointers
      modifies arena`committed, arena`buffer, arena`address, arena`alignedStart, arena`committedHigh
      modifies persistentArena`committed, persistentArena`buffer, persistentArena`address
      modifies persistentArena`alignedStart, persistentArena`committedHigh
      ensures Valid() && status == Ok && PointersAreSet(g) && Books() == old(Books())
      ensures KeepsOtherPointers(g, old(pointers))
      ensures arena.Holds(old(arena.CommittedBytes()))
      ensures persistentArena.Holds(old(persistentArena.CommittedBytes()))
    {
      status := Commit(address, persistentAddress);
      status := ResolveAll(g);
    }

    method PlaceAndCommit(g: Graph, first: int, last: int, address: nat, persistentAddress: nat)
      returns (status: Status, ghost order: seq<int>)
      requires Valid() && Agrees(kinds, g) && g.InRange() && |allocs| <= |g.tensors|
      requires arena.highWaterMark + TotalRoom(g, tensorAlignment) < SIZE_MAX
      requires persistentArena.highWaterMark + TotalRoom(g, tensorAlignment) < SIZE_MAX
      modifies this`allocs, this`allocNode, this`deallocNode, this`pointers, this`kinds, arena, persistentArena
      ensures Valid() && kinds == KindsOf(g) && Covers(State(), g)
      ensures ArenaRuns.Does(old(Books()), ArenaRuns.ExecuteAllocations(g, first, last, order), Books(),
                             tensorAlignment)
      ensures status == if tensorAlignment > ARENA_ALIGNMENT && exists t :: t in order && g.tensors[t].kind != Other
                        then Error else Ok
      ensures if status == Ok then PointersAreSet(g) && KeepsOtherPointers(g, old(pointers))
              else pointers == old(pointers)
      ensures arena.Holds(old(arena.CommittedBytes()))
      ensures persistentArena.Holds(old(persistentArena.CommittedBytes()))
    {
      ghost var shared, persistent := arena.CommittedBytes(), persistentArena.CommittedBytes();
      status, order := PlaceRange(g, first, last);
      if status == Ok {
        status := CommitAndResolve(g, address, persistentAddress);
      } else {
        HoldBytes(shared, persistent);
      }
    }

    lemma HoldBytes(shared: seq<byte>, persistent: seq<byte>)
      requires Valid() && shared == arena.CommittedBytes() && persistent == persistentArena.CommittedBytes()
      ensures arena.Holds(shared) && persistentArena.Holds(persistent)
    {
      arena.HoldsItsBytes();
      persistentArena.HoldsItsBytes();
    }

    lemma BytesAreHeld()
      requires Valid()
      ensures arena.Holds(arena.CommittedBytes()) && persistentArena.Holds(persistentArena.CommittedBytes())
      ensures |arena.CommittedBytes()| <= |arena.UsableBytes()|
      ensures arena.UsableBytes()[..|arena.CommittedBytes()|] == arena.CommittedBytes()
      ensures |persistentArena.CommittedBytes()| <= |persistentArena.UsableBytes()|
      ensures persistentArena.UsableBytes()[..|persistentArena.CommittedBytes()|] == persistentArena.CommittedBytes()
      ensures Committed(arena) ==> |arena.CommittedBytes()| == State().rwHigh
      ensures Committed(persistentArena) ==> |persistentArena.CommittedBytes()| == State().persistentHigh
    {
      arena.HoldsItsBytes();
      arena.HoldsFirst(arena.CommittedBytes());
      persistentArena.HoldsItsBytes();
      persistentArena.HoldsFirst(persistentArena.CommittedBytes());
    }

    /** Reserves memory for the tensors of nodes `[first, last]` and points every tensor at its
        bytes. `address` and `persistentAddress` are what the heap would return for new buffers. */
    method ExecuteAllocations(g: Graph, first: int, last: int, address: nat, persistentAddress: nat)
      returns (status: Status, ghost order: seq<int>)
      requires Valid() && Agrees(kinds, g) && g.InRange()
      requires arena.highWaterMark + TotalRoom(g, tensorAlignment) < SIZE_MAX
      requires persistentArena.highWaterMark + TotalRoom(g, tensorAlignment) < SIZE_MAX
      modifies this`allocs, this`allocNode, this`deallocNode, this`pointers, this`kinds, arena, persistentArena
      ensures Valid()
      // Fewer tensors than records is an error that changes nothing.
      ensures |g.tensors| < |old(allocs)| ==> status == Error && Books() == old(Books())
      // Otherwise the books are those after placing the range in some order that the sort may leave.
      ensures |g.tensors| >= |old(allocs)| ==>
                && kinds == KindsOf(g) && Covers(State(), g)
                && ArenaRuns.Does(old(Books()), ArenaRuns.ExecuteAllocations(g, first, last, order), Books(),
                                  tensorAlignment)
                && status ==
                     if tensorAlignment > ARENA_ALIGNMENT && exists t :: t in order && g.tensors[t].kind != Other
                     then Error else Ok
      ensures if status == Ok then PointersAreSet(g) && KeepsOtherPointers(g, old(pointers))
              else pointers == old(pointers)
      // The bytes of what was committed before stay, wherever the new buffers are; memory changes as it
      // may between two nodes of a run.
      ensures arena.Holds(old(arena.CommittedBytes()))
      ensures persistentArena.Holds(old(persistentArena.CommittedBytes()))
      ensures old(Committed(arena) && Committed(persistentArena)) ==>
                ArenaExecution.MayFollow(old(State()), old(arena.UsableBytes()), old(persistentArena.UsableBytes()),
                                         arena.UsableBytes(), persistentArena.UsableBytes())
    {
      ghost var before, committed := State(), Committed(arena) && Committed(persistentArena);
      ghost var shared, persistent := arena.CommittedBytes(), persistentArena.CommittedBytes();
      ghost var usable, persistentUsable := arena.UsableBytes(), persistentArena.UsableBytes();
      BytesAreHeld();
      if |g.tensors| < |allocs| {
        status, order := Error, [];
      } else {
        status, order := PlaceAndCommit(g, first, last, address, persistentAddress);
      }
      arena.HoldsFirst(shared);
      persistentArena.HoldsFirst(persistent);
      if committed {
        ArenaExecution.CommitKeeps(before, usable, persistentUsable,
                                   arena.UsableBytes(), persistentArena.UsableBytes());
      }
    }

    /** Grows the tables and registers the temporaries of the nodes in range. */
    method PrepareTensors(g: Graph, first: int, last: int)
      requires Valid() && Agrees(kinds, g) && g.InRange() && |allocs| <= |g.tensors|
      modifies this`allocs, this`allocNode, this`deallocNode, this`kinds
      ensures Valid() && kinds == KindsOf(g) && Covers(State(), g)
      ensures State() == Prepared(old(State()), g, first, last)
    {
      ghost var before := State();
      var n := |g.tensors|;
      allocs, allocNode, deallocNode :=
        Resized(allocs, n, RESET_ALLOC), Resized(allocNode, n, NOT_ASSIGNED), Resized(deallocNode, n, NOT_ASSIGNED);
      GrowKeepsInv(before, kinds, g, tensorAlignment);
      kinds := KindsOf(g);
      ghost var grown := State();
      var (lo, hi) := TemporaryRange(g, first, last);
      allocNode, deallocNode := RegisterTemporaries(g, lo, hi, allocNode, deallocNode);
      NodesDoNotMatter(grown, State(), kinds, tensorAlignment, {});
    }

    method ResolveAll(g: Graph) returns (status: Status)
      requires Valid() && kinds == KindsOf(g) && Covers(State(), g)
      requires Committed(arena) && Committed(persistentArena)
      modifies this`pointers
      ensures status == Ok
      ensures forall t :: 0 <= t < |g.tensors| ==> PointerIsSet(t, g.tensors[t].kind)
      ensures KeepsOtherPointers(g, old(pointers))
    {
      status := Ok;
      for i := 0 to |g.tensors|
        invariant status == Ok && KeepsOtherPointers(g, old(pointers))
        invariant forall t :: 0 <= t < i ==> PointerIsSet(t, g.tensors[t].kind)
      {
        CommittedResolves(g, i);
        status := ResolveTensorAllocation(g, i);
        if status == Error {
          return;
        }
      }
    }

    /** Gives the shared buffer back; the plan stays. */
    method ReleaseNonPersistentMemory(g: Graph) returns (status: Status)
      requires Valid()
      modifies this`pointers
      modifies arena`committed, arena`buffer, arena`address, arena`alignedStart, arena`committedHigh
      ensures Valid() && status == Ok && State() == old(State())
      ensures arena.buffer == null
      ensures forall t :: 0 <= t < |g.tensors| && g.tensors[t].kind == ArenaRw ==> t in pointers && pointers[t] == 0
      ensures forall t :: t in old(pointers) && !(0 <= t < |g.tensors| && g.tensors[t].kind == ArenaRw) ==>
                t in pointers && pointers[t] == old(pointers)[t]
    {
      status := arena.ReleaseBuffer();
      for i := 0 to |g.tensors|
        modifies this`pointers
        invariant forall t :: 0 <= t < i && g.tensors[t].kind == ArenaRw ==> t in pointers && pointers[t] == 0
        invariant forall t :: t in old(pointers) && !(0 <= t < i && g.tensors[t].kind == ArenaRw) ==>
                    t in pointers && pointers[t] == old(pointers)[t]
      {
        if g.tensors[i].kind == ArenaRw {
          pointers := pointers[i := 0];
        }
      }
    }

    /** The loop that points every shared tensor at its bytes. */
    method ResolveShared(g: Graph) returns (status: Status)
      requires Valid() && Agrees(kinds, g) && |g.tensors| <= |allocs| && Committed(arena)
      modifies this`pointers
      ensures status == Ok
      ensures forall t :: 0 <= t < |g.tensors| && g.tensors[t].kind == ArenaRw ==> PointerIsSet(t, ArenaRw)
      ensures KeepsOtherPointers(g, old(pointers))
      ensures forall t :: t in old(pointers) && 0 <= t < |g.tensors| && g.tensors[t].kind != ArenaRw ==>
                t in pointers && pointers[t] == old(pointers)[t]
    {
      status := Ok;
      for i := 0 to |g.tensors|
        invariant status == Ok
        invariant forall t :: 0 <= t < i && g.tensors[t].kind == ArenaRw ==> PointerIsSet(t, ArenaRw)
        invariant KeepsOtherPointers(g, old(pointers))
        invariant forall t :: t in old(pointers) && 0 <= t < |g.tensors| && g.tensors[t].kind != ArenaRw ==>
                    t in pointers && pointers[t] == old(pointers)[t]
      {
        if g.tensors[i].kind == ArenaRw {
          CommittedResolves(g, i);
          status := ResolveTensorAllocation(g, i);
          if status == Error {
            return;
          }
        }
      }
    }

    /** Allocates the shared buffer anew and points every shared tensor at its old offset in it. */
    method AcquireNonPersistentMemory(g: Graph, address: nat) returns (status: Status)
      requires Valid() && Agrees(kinds, g) && |g.tensors| <= |allocs|
      modifies this`pointers
      modifies arena`committed, arena`buffer, arena`address, arena`alignedStart, arena`committedHigh
      ensures Valid() && status == Ok && State() == old(State())
      ensures Committed(arena)
      ensures forall t :: 0 <= t < |g.tensors| && g.tensors[t].kind == ArenaRw && allocs[t].size != 0 ==>
                t in pointers && pointers[t] == arena.address + arena.alignedStart + allocs[t].offset
      ensures forall t :: t in old(pointers)
                          && !(0 <= t < |g.tensors| && g.tensors[t].kind == ArenaRw && allocs[t].size != 0) ==>
                t in pointers && pointers[t] == old(pointers)[t]
    {
      status := arena.Commit(address);
      status := ResolveShared(g);
      assert forall t :: 0 <= t < |g.tensors| && g.tensors[t].kind == ArenaRw ==> PointerIsSet(t, ArenaRw);
    }
  }

  /** The loop that makes every temporary of nodes `[lo, hi)` live at its own node only. */
  method RegisterTemporaries(g: Graph, lo: nat, hi: nat, allocNode: seq<int>, deallocNode: seq<int>)
    returns (a: seq<int>, d: seq<int>)
    requires g.InRange() && hi <= |g.nodes| && |allocNode| == |deallocNode| == |g.tensors|
    ensures a == WithTemporaries(allocNode, g.nodes, lo, hi) && d == WithTemporaries(deallocNode, g.nodes, lo, hi)
  {
    a, d := allocNode, deallocNode;
    var i := lo;
    while i < hi
      invariant i <= hi || i == lo
      invariant |a| == |d| == |g.tensors|
      invariant a == WithTemporaries(allocNode, g.nodes, lo, if i <= hi then i else hi)
      invariant d == WithTemporaries(deallocNode, g.nodes, lo, if i <= hi then i else hi)
    {
      ghost var a0, d0 := a, d;
      var temporaries := g.nodes[i].temporaries;
      for j := 0 to |temporaries|
        invariant |a| == |d| == |g.tensors|
        invariant forall t :: 0 <= t < |a| ==> a[t] == if t in temporaries[..j] then i else a0[t]
        invariant forall t :: 0 <= t < |d| ==> d[t] == if t in temporaries[..j] then i else d0[t]
      {
        assert temporaries[..j + 1] == temporaries[..j] + [temporaries[j]];
        assert temporaries[j] in temporaries && g.NodeInRange(g.nodes[i]);
        a, d := a[temporaries[j] := i], d[temporaries[j] := i];
      }
      assert temporaries[..|temporaries|] == temporaries;
      i := i + 1;
    }
  }

  lemma {:induction false} MisalignedPlacesNothing(p: Plan, g: Graph, order: seq<int>, alignment: nat)
    requires alignment > ARENA_ALIGNMENT && Covers(p, g) && Tensors(order, g)
    ensures PlaceAll(p, g, order, alignment) == p
  {
    if order != [] {
      MisalignedPlacesNothing(p, g, order[..|order| - 1], alignment);
    }
  }

  /** Placing ends at the end of the order, or at an alignment error, which nothing escapes. */
  lemma StoppedIsDone(p: Plan, g: Graph, order: seq<int>, k: nat, alignment: nat)
    requires Covers(p, g) && Tensors(order, g) && k <= |order| && alignment > 0
    requires k == |order| || alignment > ARENA_ALIGNMENT
    ensures PlaceAll(p, g, order[..k], alignment) == PlaceAll(p, g, order, alignment)
  {
    if k == |order| {
      assert order[..k] == order;
    } else {
      MisalignedPlacesNothing(p, g, order[..k], alignment);
      MisalignedPlacesNothing(p, g, order, alignment);
    }
  }
}
