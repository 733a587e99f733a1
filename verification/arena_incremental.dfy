/** Planning while the graph runs: the sizes of dynamic tensors become known only once their
    producers have run, and operations may add temporaries when they are prepared. So the planner is
    called again and again for the nodes still to come, on a tensor table that grows. */
module ArenaIncremental {
  import opened Basics
  import opened GraphInfo
  import opened MemoryArena
  import opened Lifetimes
  import opened ArenaPlan
  import opened ArenaExecution
  import opened ArenaRuns

  /** One call of the planner and what it leaves. When it places tensors, the sizes of those that come
      alive up to node `known` are final; later ones may be guesses. */
  datatype Turn = Turn(call: Call, known: int, after: Books)

  function After(b: Books, turns: seq<Turn>): Books {
    if turns == [] then b else turns[|turns| - 1].after
  }

  // ----- Trust -----------------------------------------------------------------------------------

  /** The nodes whose tensors are placed with final sizes, after one more call. */
  ghost function TrustedAfter(nodes: nat, trusted: set<int>, turn: Turn): set<int> {
    match turn.call
    case PlanAllocations(_, _, _) => {}
    case ExecuteAllocations(_, first, last, _) =>
      set k | 0 <= k < nodes && if first <= k <= last then k <= turn.known else k in trusted
    case ResetAllocationsAfter(_, node) => set k | k in trusted && k <= node
    case Memory => trusted
  }

  ghost function Trusted(nodes: nat, trusted: set<int>, turns: seq<Turn>): set<int> {
    if turns == [] then trusted
    else TrustedAfter(nodes, Trusted(nodes, trusted, turns[..|turns| - 1]), turns[|turns| - 1])
  }

  ghost predicate AllBelow(i: int, trusted: set<int>) {
    forall k :: 0 <= k < i ==> k in trusted
  }

  // ----- What a call may do in a run -----------------------------------------------------------------

  /** An earlier state of the graph's tensor table: it may be shorter, and sizes may differ. */
  ghost predicate EarlierTable(s: Setting, g: Graph) {
    |g.tensors| <= |s.g.tensors| && forall t :: 0 <= t < |g.tensors| ==> g.tensors[t].kind == s.g.tensors[t].kind
  }

  /** The temporaries that a call registers are the final ones, and in its table. */
  ghost predicate RegistersTemporaries(s: Setting, g: Graph, first: int, last: int) {
    var (lo, hi) := TemporaryRange(g, first, last);
    && |g.nodes| == |s.g.nodes|
    && (forall k :: lo <= k < hi ==> g.nodes[k].temporaries == s.g.nodes[k].temporaries)
    && (forall k, t :: lo <= k < hi && t in g.nodes[k].temporaries ==> t < |g.tensors|)
  }

  /** A call right before node `i` runs: it places and forgets nothing that is alive by then, and it
      knows the sizes that it is to know. */
  ghost predicate Fits(s: Setting, i: int, turn: Turn)
    requires |s.alloc| == |s.g.tensors|
  {
    match turn.call
    case PlanAllocations(_, _, _) => false
    case ExecuteAllocations(g, first, last, _) =>
      && i <= first && EarlierTable(s, g) && RegistersTemporaries(s, g, first, last)
      && forall t :: 0 <= t < |g.tensors| && first <= s.alloc[t] <= last && s.alloc[t] <= turn.known ==>
           g.tensors[t].bytes == s.g.tensors[t].bytes
    case ResetAllocationsAfter(g, node) => i - 1 <= node && EarlierTable(s, g)
    case Memory => true
  }

  /** The calls `turns`, one after the other, right before node `i`. */
  ghost predicate Serves(s: Setting, i: int, b: Books, turns: seq<Turn>)
    requires |s.alloc| == |s.g.tensors| && s.alignment > 0
  {
    turns == [] ||
    var n := |turns| - 1;
    Serves(s, i, b, turns[..n]) && Fits(s, i, turns[n]) &&
    Does(After(b, turns[..n]), turns[n].call, turns[n].after, s.alignment)
  }

  // ----- What the books say ----------------------------------------------------------------------------

  /** The books are sound, and the tensors of trusted nodes are placed as they are to be. */
  ghost predicate Planned(s: Setting, b: Books, trusted: set<int>) {
    && s.alignment > 0 && Sound(b, s.alignment) && |s.alloc| == |s.dealloc| == |s.g.tensors|
    && |b.plan.allocs| == |b.plan.allocNode| == |b.plan.deallocNode| == |b.kinds| <= |s.g.tensors|
    && (forall t :: 0 <= t < |b.kinds| ==> b.kinds[t] == s.g.tensors[t].kind)
    && (forall k :: k in trusted ==> 0 <= k < |s.g.nodes|)
    && (forall t :: 0 <= t < |s.g.tensors| ==> NodesKnown(s, Grown(b.plan, |s.g.tensors|), trusted, t))
    && (forall t :: 0 <= t < |s.g.tensors| && s.g.tensors[t].kind != Other && s.alloc[t] in trusted ==>
          Served(s, Grown(b.plan, |s.g.tensors|).allocs[t], t))
  }

  /** Lifetimes are in place, except perhaps for temporaries of nodes still to be planned for. */
  ghost predicate NodesKnown(s: Setting, p: Plan, trusted: set<int>, t: int)
    requires Covers(p, s.g) && |s.alloc| == |s.dealloc| == |s.g.tensors| && 0 <= t < |s.g.tensors|
  {
    || (s.alloc[t] !in trusted && (exists k :: IsTemporary(s.g, k, t)) && p.allocNode[t] == NOT_ASSIGNED)
    || (p.allocNode[t] == s.alloc[t] && p.deallocNode[t] == s.dealloc[t])
  }

  ghost predicate Served(s: Setting, a: Alloc, t: int)
    requires |s.alloc| == |s.dealloc| == |s.g.tensors| && 0 <= t < |s.g.tensors|
  {
    a.size == s.g.tensors[t].bytes && a.firstNode == s.alloc[t] && a.lastNode == s.Last(t)
  }

  /** The setting's lifetimes are those that the planner is to find. */
  ghost predicate LifetimesKnown(s: Setting) {
    && |s.g.nodes| < NOT_ASSIGNED && |s.alloc| == |s.dealloc| == |s.g.tensors|
    && forall t :: 0 <= t < |s.g.tensors| ==> s.LifetimeOf(t)
  }

  lemma AllocNodes(s: Setting, t: int)
    requires LifetimesKnown(s) && 0 <= t < |s.g.tensors|
    ensures s.alloc[t] == NOT_ASSIGNED || 0 <= s.alloc[t] <= |s.g.nodes|
    ensures forall k :: IsTemporary(s.g, k, t) ==> s.alloc[t] == s.dealloc[t] == k
  {
    assert s.LifetimeOf(t);
  }

  // ----- Temporaries ------------------------------------------------------------------------------------

  lemma {:induction false} SameHolder(a: seq<Node>, b: seq<Node>, lo: nat, hi: nat, t: int)
    requires hi <= |a| && hi <= |b| && forall k :: lo <= k < hi ==> a[k].temporaries == b[k].temporaries
    ensures LastHolder(a, lo, hi, t) == LastHolder(b, lo, hi, t)
    decreases hi
  {
    if lo < hi {
      SameHolder(a, b, lo, hi - 1, t);
    }
  }

  lemma HolderIsAlloc(s: Setting, lo: nat, hi: nat, t: int)
    requires LifetimesKnown(s) && hi <= |s.g.nodes| && 0 <= t < |s.g.tensors|
    ensures LastHolder(s.g.nodes, lo, hi, t) >= 0 ==> s.alloc[t] == s.dealloc[t] == LastHolder(s.g.nodes, lo, hi, t)
    ensures (exists k :: IsTemporary(s.g, k, t)) && lo <= s.alloc[t] < hi ==>
              LastHolder(s.g.nodes, lo, hi, t) == s.alloc[t]
  {
    AllocNodes(s, t);
    var h := LastHolder(s.g.nodes, lo, hi, t);
    assert h >= 0 ==> IsTemporary(s.g, h, t);
  }

  /** What registering temporaries does to the lifetime of a tensor in the final table. */
  lemma Registered(s: Setting, p: Plan, g: Graph, first: int, last: int, t: int)
    requires LifetimesKnown(s) && EarlierTable(s, g) && RegistersTemporaries(s, g, first, last)
    requires 0 <= t < |s.g.tensors|
    requires |p.allocs| == |p.allocNode| == |p.deallocNode| <= |g.tensors|
    ensures var (lo, hi) := TemporaryRange(g, first, last);
            var n, h := |s.g.tensors|, LastHolder(s.g.nodes, lo, hi, t);
            var before, after := Grown(p, n), Grown(Prepared(p, g, first, last), n);
            && after.allocs == before.allocs
            && after.allocNode[t] == (if h >= 0 then h else before.allocNode[t])
            && after.deallocNode[t] == (if h >= 0 then h else before.deallocNode[t])
  {
    var (lo, hi) := TemporaryRange(g, first, last);
    SameHolder(g.nodes, s.g.nodes, lo, hi, t);
    var h := LastHolder(s.g.nodes, lo, hi, t);
    assert h >= 0 ==> t in g.nodes[h].temporaries;
  }

  // ----- Every call keeps the books ----------------------------------------------------------------------

  lemma ResetKeepsPlanned(s: Setting, b: Books, trusted: set<int>, i: int, turn: Turn)
    requires LifetimesKnown(s) && Planned(s, b, trusted) && Does(b, turn.call, turn.after, s.alignment)
    requires turn.call.ResetAllocationsAfter? && Fits(s, i, turn)
    ensures Planned(s, turn.after, TrustedAfter(|s.g.nodes|, trusted, turn))
    ensures forall t | 0 <= t < |s.g.tensors| && s.g.tensors[t].kind != Other &&
                       s.alloc[t] < i && s.alloc[t] in trusted ::
              Grown(turn.after.plan, |s.g.tensors|).allocs[t] == Grown(b.plan, |s.g.tensors|).allocs[t]
  {
    CallKeeps(b, turn.call, turn.after, s.alignment);
    ResetAfterRecords(b.plan, turn.call.g, turn.call.node, |b.plan.allocs|);
    var n := |s.g.tensors|;
    var p, q := Grown(b.plan, n), Grown(turn.after.plan, n);
    forall t | 0 <= t < n && s.g.tensors[t].kind != Other && s.alloc[t] in trusted && s.alloc[t] <= turn.call.node
      ensures q.allocs[t] == p.allocs[t]
    {
      assert Served(s, p.allocs[t], t);
    }
    forall t | 0 <= t < n ensures NodesKnown(s, q, TrustedAfter(|s.g.nodes|, trusted, turn), t) {
      assert NodesKnown(s, p, trusted, t);
    }
  }

  lemma ExecutionKnowsNodes(s: Setting, b: Books, trusted: set<int>, i: nat, turn: Turn, t: int)
    requires LifetimesKnown(s) && Planned(s, b, trusted) && Does(b, turn.call, turn.after, s.alignment)
    requires turn.call.ExecuteAllocations? && Fits(s, i, turn) && 0 <= t < |s.g.tensors|
    ensures |turn.after.plan.allocs| == |turn.after.plan.allocNode| == |turn.after.plan.deallocNode|
         == |turn.call.g.tensors| <= |s.g.tensors|
    ensures NodesKnown(s, Grown(turn.after.plan, |s.g.tensors|), TrustedAfter(|s.g.nodes|, trusted, turn), t)
    ensures s.alloc[t] in trusted ==> Grown(turn.after.plan, |s.g.tensors|).allocNode[t] == s.alloc[t]
  {
    var (lo, hi) := TemporaryRange(turn.call.g, turn.call.first, turn.call.last);
    Registered(s, b.plan, turn.call.g, turn.call.first, turn.call.last, t);
    HolderIsAlloc(s, lo, hi, t);
    assert NodesKnown(s, Grown(b.plan, |s.g.tensors|), trusted, t);
  }

  /** An execution serves what it places with known sizes, and leaves what is out of its range. */
  lemma ExecutionServes(s: Setting, b: Books, trusted: set<int>, i: nat, turn: Turn, t: int)
    requires LifetimesKnown(s) && Planned(s, b, trusted) && Does(b, turn.call, turn.after, s.alignment)
    requires turn.call.ExecuteAllocations? && Fits(s, i, turn) && s.alignment <= ARENA_ALIGNMENT
    requires 0 <= t < |s.g.tensors| && s.g.tensors[t].kind != Other
    ensures |turn.after.plan.allocs| <= |s.g.tensors|
    ensures s.alloc[t] in trusted && !(turn.call.first <= s.alloc[t] <= turn.call.last) ==>
              Grown(turn.after.plan, |s.g.tensors|).allocs[t] == Grown(b.plan, |s.g.tensors|).allocs[t]
    ensures s.alloc[t] in TrustedAfter(|s.g.nodes|, trusted, turn) ==>
              Served(s, Grown(turn.after.plan, |s.g.tensors|).allocs[t], t)
  {
    var g, order := turn.call.g, turn.call.order;
    var prepared := Prepared(b.plan, g, turn.call.first, turn.call.last);
    ExecutionKnowsNodes(s, b, trusted, i, turn, t);
    if t < |g.tensors| {
      if t in order {
        PlaceAllRecords(DropAll(prepared, g, order), g, order, s.alignment, t);
      } else {
        PlaceAllLeaves(DropAll(prepared, g, order), g, order, s.alignment, t);
      }
    }
  }

  lemma ExecutionKeepsPlanned(s: Setting, b: Books, trusted: set<int>, i: nat, turn: Turn)
    requires LifetimesKnown(s) && Planned(s, b, trusted) && Does(b, turn.call, turn.after, s.alignment)
    requires turn.call.ExecuteAllocations? && Fits(s, i, turn) && s.alignment <= ARENA_ALIGNMENT
    ensures Planned(s, turn.after, TrustedAfter(|s.g.nodes|, trusted, turn))
  {
    CallKeeps(b, turn.call, turn.after, s.alignment);
    var q, after := Grown(turn.after.plan, |s.g.tensors|), TrustedAfter(|s.g.nodes|, trusted, turn);
    forall t | 0 <= t < |s.g.tensors| ensures NodesKnown(s, q, after, t) {
      ExecutionKnowsNodes(s, b, trusted, i, turn, t);
    }
    forall t | 0 <= t < |s.g.tensors| && s.g.tensors[t].kind != Other && s.alloc[t] in after
      ensures Served(s, q.allocs[t], t)
    {
      ExecutionServes(s, b, trusted, i, turn, t);
    }
  }

  lemma ExecutionKeepsTrust(s: Setting, b: Books, trusted: set<int>, i: nat, turn: Turn)
    requires Planned(s, b, trusted) && AllBelow(i, trusted) && turn.call.ExecuteAllocations? && Fits(s, i, turn)
    ensures AllBelow(i, TrustedAfter(|s.g.nodes|, trusted, turn))
  {
    forall k | 0 <= k < i ensures k in TrustedAfter(|s.g.nodes|, trusted, turn) {
      assert k in trusted;
    }
  }

  /** Every call keeps the books planned as far as it can be trusted, and moves nothing that is alive. */
  lemma TurnKeepsPlanned(s: Setting, b: Books, trusted: set<int>, i: nat, turn: Turn)
    requires LifetimesKnown(s) && Planned(s, b, trusted) && AllBelow(i, trusted) && s.alignment <= ARENA_ALIGNMENT
    requires Does(b, turn.call, turn.after, s.alignment) && Fits(s, i, turn)
    ensures Planned(s, turn.after, TrustedAfter(|s.g.nodes|, trusted, turn))
    ensures AllBelow(i, TrustedAfter(|s.g.nodes|, trusted, turn))
    ensures Stays(s, b, turn.after, i)
  {
    match turn.call {
      case ResetAllocationsAfter(_, _) =>
        ResetKeepsPlanned(s, b, trusted, i, turn);
        forall t | 0 <= t < |s.g.tensors| && s.alloc[t] < i ensures s.alloc[t] in trusted {
          AllocNodes(s, t);
        }
      case ExecuteAllocations(_, _, _, _) =>
        ExecutionKeepsPlanned(s, b, trusted, i, turn);
        ExecutionKeepsTrust(s, b, trusted, i, turn);
        forall t | 0 <= t < |s.g.tensors| && s.alloc[t] < i && s.g.tensors[t].kind != Other
          ensures Grown(turn.after.plan, |s.g.tensors|).allocs[t] == Grown(b.plan, |s.g.tensors|).allocs[t]
        {
          AllocNodes(s, t);
          ExecutionServes(s, b, trusted, i, turn, t);
        }
      case Memory =>
    }
  }

  /** Nothing that comes alive before node `i` has moved. */
  ghost predicate Stays(s: Setting, b: Books, r: Books, i: int)
    requires |s.alloc| == |s.g.tensors|
  {
    forall t :: 0 <= t < |s.g.tensors| && s.g.tensors[t].kind != Other && s.alloc[t] < i ==>
      Grown(r.plan, |s.g.tensors|).allocs[t] == Grown(b.plan, |s.g.tensors|).allocs[t]
  }

  /** The same for all calls before a node. */
  lemma {:induction false} RoundKeepsPlanned(s: Setting, b: Books, trusted: set<int>, i: nat, turns: seq<Turn>)
    requires LifetimesKnown(s) && Planned(s, b, trusted) && AllBelow(i, trusted) && s.alignment <= ARENA_ALIGNMENT
    requires Serves(s, i, b, turns)
    ensures Planned(s, After(b, turns), Trusted(|s.g.nodes|, trusted, turns))
    ensures AllBelow(i, Trusted(|s.g.nodes|, trusted, turns)) && Stays(s, b, After(b, turns), i)
  {
    if turns != [] {
      var n := |turns| - 1;
      RoundKeepsPlanned(s, b, trusted, i, turns[..n]);
      TurnKeepsPlanned(s, After(b, turns[..n]), Trusted(|s.g.nodes|, trusted, turns[..n]), i, turns[n]);
    }
  }

  // ----- Runs ---------------------------------------------------------------------------------------------

  /** The books before the calls of node `i`, and how far they can be trusted. */
  function BooksBefore(start: Books, rounds: seq<seq<Turn>>, i: nat): Books
    requires i <= |rounds|
  {
    if i == 0 then start else After(BooksBefore(start, rounds, i - 1), rounds[i - 1])
  }

  ghost function TrustBefore(nodes: nat, trusted: set<int>, rounds: seq<seq<Turn>>, i: nat): set<int>
    requires i <= |rounds|
  {
    if i == 0 then trusted else Trusted(nodes, TrustBefore(nodes, trusted, rounds, i - 1), rounds[i - 1])
  }

  /** A run of `s` whose plans come from the planner: it starts with any books that are planned as far
      as `trusted`, node `i` runs after the calls `rounds[i]`, and by then everything that comes
      alive up to it is placed with its final size. */
  ghost predicate PlannedBy(s: Setting, start: Books, trusted: set<int>, rounds: seq<seq<Turn>>) {
    && 0 < s.alignment <= ARENA_ALIGNMENT && s.g.InRange() && |rounds| == |s.g.nodes|
    && Topological(s.g) && TemporariesArePrivate(s.g)
    && s.Sized() && (forall i :: 0 <= i < |s.g.nodes| ==> KernelFits(s.g, i, s.program[i]))
    && LifetimesKnown(s) && Planned(s, start, trusted)
    && (forall i :: 0 <= i < |rounds| ==> RoundFits(s, start, trusted, rounds, i))
    && s.plans[|rounds|] == Grown(BooksBefore(start, rounds, |rounds|).plan, |s.g.tensors|)
  }

  ghost predicate RoundFits(s: Setting, start: Books, trusted: set<int>, rounds: seq<seq<Turn>>, i: int)
    requires s.Sized() && 0 <= i < |rounds| == |s.g.nodes| && |s.alloc| == |s.g.tensors| && s.alignment > 0
  {
    && Serves(s, i, BooksBefore(start, rounds, i), rounds[i])
    && AllBelow(i + 1, TrustBefore(|s.g.nodes|, trusted, rounds, i + 1))
    && s.plans[i] == Grown(BooksBefore(start, rounds, i + 1).plan, |s.g.tensors|)
  }

  lemma {:induction false} PlannedThroughout(s: Setting, start: Books, trusted: set<int>, rounds: seq<seq<Turn>>,
                                             i: nat)
    requires PlannedBy(s, start, trusted, rounds) && i <= |rounds|
    ensures Planned(s, BooksBefore(start, rounds, i), TrustBefore(|s.g.nodes|, trusted, rounds, i))
    ensures AllBelow(i, TrustBefore(|s.g.nodes|, trusted, rounds, i))
  {
    if i > 0 {
      PlannedThroughout(s, start, trusted, rounds, i - 1);
      assert RoundFits(s, start, trusted, rounds, i - 1);
      RoundKeepsPlanned(s, BooksBefore(start, rounds, i - 1), TrustBefore(|s.g.nodes|, trusted, rounds, i - 1), i - 1,
                        rounds[i - 1]);
    }
  }

  lemma PlannedServes(s: Setting, b: Books, trusted: set<int>, i: nat)
    requires LifetimesKnown(s) && Planned(s, b, trusted) && AllBelow(i + 1, trusted) && i < |s.g.nodes|
    requires i < |s.plans| && s.plans[i] == Grown(b.plan, |s.g.tensors|)
    ensures s.PlanServes(i)
  {
    GrowKeepsInv(b.plan, b.kinds, s.g, s.alignment);
    forall t | 0 <= t < |s.g.tensors| && s.g.tensors[t].kind != Other && s.AliveAt(i, t)
      ensures Served(s, s.plans[i].allocs[t], t)
    {
      AllocNodes(s, t);
    }
  }

  lemma PlannedStays(s: Setting, start: Books, trusted: set<int>, rounds: seq<seq<Turn>>, i: nat)
    requires PlannedBy(s, start, trusted, rounds) && 0 < i < |s.plans|
    ensures s.PlanStays(i)
  {
    assert RoundFits(s, start, trusted, rounds, i - 1);
    if i < |rounds| {
      PlannedThroughout(s, start, trusted, rounds, i);
      assert RoundFits(s, start, trusted, rounds, i);
      RoundKeepsPlanned(s, BooksBefore(start, rounds, i), TrustBefore(|s.g.nodes|, trusted, rounds, i), i, rounds[i]);
    }
  }

  /** A planned run, however its planning is spread over the run, is one that shared memory cannot
      disturb. */
  lemma PlannedRunIsServed(s: Setting, start: Books, trusted: set<int>, rounds: seq<seq<Turn>>)
    requires PlannedBy(s, start, trusted, rounds)
    ensures s.Valid()
  {
    forall i | 0 <= i < |s.g.nodes| ensures s.PlanServes(i) {
      PlannedThroughout(s, start, trusted, rounds, i + 1);
      assert RoundFits(s, start, trusted, rounds, i);
      PlannedServes(s, BooksBefore(start, rounds, i + 1), TrustBefore(|s.g.nodes|, trusted, rounds, i + 1), i);
    }
    forall i | 0 < i < |s.plans| ensures s.PlanStays(i) {
      PlannedStays(s, start, trusted, rounds, i);
    }
  }

  /** The planner's promise: plan the lifetimes, place tensors before their nodes run - all at
      once or as their sizes become known - and the run in shared memory gives every node the
      inputs, and the caller the results, of a run with a private buffer for every tensor. */
  lemma PlannerIsInvisible(s: Setting, start: Books, trusted: set<int>, rounds: seq<seq<Turn>>, mems: seq<Memory>,
                           m': Memory)
    requires PlannedBy(s, start, trusted, rounds)
    requires SharedRun(s, mems) && SameStart(s, mems[0], m')
    ensures forall i, t :: 0 <= i < |s.g.nodes| && s.g.Consumes(i, t) && t != OPTIONAL_TENSOR ==>
              0 <= t < |s.g.tensors| && SameContents(s, s.plans[i], mems[i], PrivateRun(s, m', i), t)
    ensures forall t :: 0 <= t < |s.g.tensors| && Survives(s, t) ==>
              SameContents(s, s.plans[|s.g.nodes|], mems[|s.g.nodes|], PrivateRun(s, m', |s.g.nodes|), t)
  {
    PlannedRunIsServed(s, start, trusted, rounds);
    SharedMemoryIsInvisible(s, mems, m');
  }

  // ----- Where a run may start -------------------------------------------------------------------------

  /** The graph when its lifetimes were planned: nodes may gain temporaries and the table tensors later. */
  ghost predicate EarlierGraph(s: Setting, g: Graph) {
    && EarlierTable(s, g) && g.InRange() && |g.nodes| == |s.g.nodes|
    && (forall k :: 0 <= k < |g.nodes| ==>
          g.nodes[k].inputs == s.g.nodes[k].inputs && g.nodes[k].outputs == s.g.nodes[k].outputs)
    && g.inputs == s.g.inputs && g.outputs == s.g.outputs && g.variables == s.g.variables
  }

  /** The setting's lifetimes are the planned ones, with temporaries at their nodes. */
  ghost predicate LifetimesFrom(s: Setting, allocNode: seq<int>, deallocNode: seq<int>) {
    && s.alloc == WithTemporaries(Resized(allocNode, |s.g.tensors|, NOT_ASSIGNED), s.g.nodes, 0, |s.g.nodes|)
    && s.dealloc == WithTemporaries(Resized(deallocNode, |s.g.tensors|, NOT_ASSIGNED), s.g.nodes, 0, |s.g.nodes|)
  }

  /** Planned lifetimes stay exact when the table grows: what is new is not used by the graph. */
  lemma GrownLifetimes(s: Setting, g: Graph, allocNode: seq<int>, deallocNode: seq<int>, t: int)
    requires EarlierGraph(s, g) && ExactLifetimes(g, s.options, allocNode, deallocNode) && 0 <= t < |s.g.tensors|
    requires |s.g.nodes| < NOT_ASSIGNED
    ensures var a := Resized(allocNode, |s.g.tensors|, NOT_ASSIGNED)[t];
            var d := Resized(deallocNode, |s.g.tensors|, NOT_ASSIGNED)[t];
            ComesAliveAt(s.g, t, a) && DiesAt(s.g, s.options, t, a, d)
  {
    forall k | 0 <= k < |g.nodes| ensures g.NodeInRange(g.nodes[k]) {
    }
    assert forall k :: 0 <= k < |g.nodes| ==>
      (g.Produces(k, t) <==> s.g.Produces(k, t)) && (g.Consumes(k, t) <==> s.g.Consumes(k, t));
    assert forall d :: LastConsumer(g, t, d) <==> LastConsumer(s.g, t, d);
    if t >= |g.tensors| {
      assert forall k :: 0 <= k < |g.nodes| ==> !g.Produces(k, t);
    } else {
      assert ComesAliveAt(g, t, allocNode[t]) && DiesAt(g, s.options, t, allocNode[t], deallocNode[t]);
    }
  }

  lemma PlannedLifetime(s: Setting, g: Graph, allocNode: seq<int>, deallocNode: seq<int>, t: int)
    requires EarlierGraph(s, g) && ExactLifetimes(g, s.options, allocNode, deallocNode)
    requires LifetimesFrom(s, allocNode, deallocNode)
    requires TemporariesArePrivate(s.g) && |s.g.nodes| < NOT_ASSIGNED && 0 <= t < |s.g.tensors|
    ensures |s.alloc| == |s.dealloc| == |s.g.tensors| && s.LifetimeOf(t)
    ensures var a := Resized(allocNode, |s.g.tensors|, NOT_ASSIGNED)[t];
            var d := Resized(deallocNode, |s.g.tensors|, NOT_ASSIGNED)[t];
            if exists k :: IsTemporary(s.g, k, t) then a == NOT_ASSIGNED else a == s.alloc[t] && d == s.dealloc[t]
  {
    GrownLifetimes(s, g, allocNode, deallocNode, t);
    var h := LastHolder(s.g.nodes, 0, |s.g.nodes|, t);
    assert h >= 0 ==> IsTemporary(s.g, h, t);
    forall k | IsTemporary(s.g, k, t) ensures h == k {
      assert IsTemporary(s.g, h, t);
    }
  }

  /** Right after `PlanAllocations`, on a table that may still grow, a run may start. */
  lemma FreshlyPlanned(s: Setting, g: Graph, allocNode: seq<int>, deallocNode: seq<int>, b: Books, r: Books)
    requires EarlierGraph(s, g) && ExactLifetimes(g, s.options, allocNode, deallocNode)
    requires LifetimesFrom(s, allocNode, deallocNode)
    requires TemporariesArePrivate(s.g) && |s.g.nodes| < NOT_ASSIGNED && s.alignment > 0
    requires Does(b, PlanAllocations(g, allocNode, deallocNode), r, s.alignment)
    ensures LifetimesKnown(s) && Planned(s, r, {})
  {
    forall t | 0 <= t < |s.g.tensors| ensures s.LifetimeOf(t) && NodesKnown(s, Grown(r.plan, |s.g.tensors|), {}, t) {
      PlannedLifetime(s, g, allocNode, deallocNode, t);
    }
    assert forall t :: 0 <= t < |g.tensors| ==> RecordIsEntry(r.plan, r.kinds, {}, t);
  }

  /** Calls before a run - executions of any ranges and resets, in any order - leave books that a run
      may start with. */
  lemma PreparedForRun(s: Setting, b: Books, trusted: set<int>, turns: seq<Turn>)
    requires LifetimesKnown(s) && Planned(s, b, trusted) && s.alignment <= ARENA_ALIGNMENT && Serves(s, 0, b, turns)
    ensures Planned(s, After(b, turns), Trusted(|s.g.nodes|, trusted, turns))
  {
    RoundKeepsPlanned(s, b, trusted, 0, turns);
  }

  /** A run leaves books that the next run on the same plan may start with, trusted at every node. */
  lemma RunMayRepeat(s: Setting, start: Books, trusted: set<int>, rounds: seq<seq<Turn>>)
    requires PlannedBy(s, start, trusted, rounds)
    ensures var n := |s.g.nodes|;
            && Planned(s, BooksBefore(start, rounds, n), TrustBefore(n, trusted, rounds, n))
            && AllBelow(n, TrustBefore(n, trusted, rounds, n))
  {
    PlannedThroughout(s, start, trusted, rounds, |s.g.nodes|);
  }

  /** The same graph with other sizes. */
  ghost predicate OtherSizes(s: Setting, s': Setting) {
    && s'.g == s.g.(tensors := s'.g.tensors) && |s'.g.tensors| == |s.g.tensors|
    && (forall t :: 0 <= t < |s.g.tensors| ==> s'.g.tensors[t].kind == s.g.tensors[t].kind)
    && s'.options == s.options && s'.alignment == s.alignment && s'.alloc == s.alloc && s'.dealloc == s.dealloc
  }

  /** When sizes change between runs, the nodes whose tensors keep theirs stay trusted. */
  lemma SizesMayChange(s: Setting, s': Setting, b: Books, trusted: set<int>, still: set<int>)
    requires Planned(s, b, trusted) && OtherSizes(s, s') && still <= trusted
    requires forall t :: 0 <= t < |s.g.tensors| && s.alloc[t] in still ==> s'.g.tensors[t].bytes == s.g.tensors[t].bytes
    ensures Planned(s', b, still)
  {
    forall t | 0 <= t < |s'.g.tensors| ensures NodesKnown(s', Grown(b.plan, |s'.g.tensors|), still, t) {
      assert NodesKnown(s, Grown(b.plan, |s.g.tensors|), trusted, t);
      assert forall k :: IsTemporary(s.g, k, t) <==> IsTemporary(s'.g, k, t);
    }
    forall t | 0 <= t < |s'.g.tensors| && s'.g.tensors[t].kind != Other && s'.alloc[t] in still
      ensures Served(s', Grown(b.plan, |s'.g.tensors|).allocs[t], t)
    {
      assert Served(s, Grown(b.plan, |s.g.tensors|).allocs[t], t);
    }
  }
}
