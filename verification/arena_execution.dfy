/** What the arenas are for: running a graph in the planned, shared memory computes the same
    tensors as running it with a private buffer for every tensor. */
module ArenaExecution {
  import opened Basics
  import opened GraphInfo
  import opened Lifetimes
  import opened ArenaPlan

  // ----- Memory ---------------------------------------------------------------------------------

  type Bytes = seq<byte>

  /** `Own(t)` is storage that belongs to tensor `t` alone. */
  datatype Bank = Shared | Persistent | Own(tensor: int)

  datatype Cell = Cell(bank: Bank, at: nat)

  type Memory = Cell -> byte

  datatype Region = Region(bank: Bank, start: nat, size: nat) {
    predicate Has(c: Cell) { c.bank == bank && start <= c.at < start + size }
  }

  type Layout = seq<Region>

  function Load(m: Memory, r: Region): (v: Bytes)
    ensures |v| == r.size
  {
    seq(r.size, k requires 0 <= k < r.size => m(Cell(r.bank, r.start + k)))
  }

  function Store(m: Memory, r: Region, v: Bytes): Memory
    requires |v| == r.size
  {
    (c: Cell) => if r.Has(c) then v[c.at - r.start] else m(c)
  }

  ghost predicate Apart(r: Region, s: Region) {
    r.bank != s.bank || r.size == 0 || s.size == 0 || r.start + r.size <= s.start || s.start + s.size <= r.start
  }

  lemma LoadStored(m: Memory, r: Region, v: Bytes)
    requires |v| == r.size
    ensures Load(Store(m, r, v), r) == v
  {
    forall k | 0 <= k < r.size ensures Load(Store(m, r, v), r)[k] == v[k] {
      var c := Cell(r.bank, r.start + k);
      assert r.Has(c) && Store(m, r, v)(c) == v[c.at - r.start];
    }
  }

  lemma LoadElsewhere(m: Memory, r: Region, v: Bytes, s: Region)
    requires |v| == r.size && Apart(r, s)
    ensures Load(Store(m, r, v), s) == Load(m, s)
  {
    forall k | 0 <= k < s.size ensures Load(Store(m, r, v), s)[k] == Load(m, s)[k] {
      var c := Cell(s.bank, s.start + k);
      assert !r.Has(c) && Store(m, r, v)(c) == m(c);
    }
  }

  // ----- Kernels --------------------------------------------------------------------------------

  /** A kernel is any number of steps. A step computes a whole tensor, byte by byte, as an
      arbitrary function of the contents of its sources. */
  datatype Step = Step(target: int, sources: seq<int>, compute: (seq<Bytes>, nat) -> byte)

  type Kernel = seq<Step>

  predicate StepsInRange(kernel: Kernel, n: nat) {
    forall j :: 0 <= j < |kernel| ==>
      0 <= kernel[j].target < n && forall k :: 0 <= k < |kernel[j].sources| ==> 0 <= kernel[j].sources[k] < n
  }

  function Operands(m: Memory, layout: Layout, sources: seq<int>): seq<Bytes>
    requires forall k :: 0 <= k < |sources| ==> 0 <= sources[k] < |layout|
  {
    seq(|sources|, k requires 0 <= k < |sources| => Load(m, layout[sources[k]]))
  }

  function Computed(s: Step, args: seq<Bytes>, size: nat): (v: Bytes)
    ensures |v| == size
  {
    seq(size, k requires 0 <= k < size => s.compute(args, k))
  }

  /** The memory after one step. */
  function AfterStep(m: Memory, layout: Layout, step: Step): Memory
    requires 0 <= step.target < |layout| && forall k :: 0 <= k < |step.sources| ==> 0 <= step.sources[k] < |layout|
  {
    Store(m, layout[step.target], Computed(step, Operands(m, layout, step.sources), layout[step.target].size))
  }

  /** The memory after the first `j` steps of a kernel. */
  function AfterSteps(m: Memory, layout: Layout, kernel: Kernel, j: nat): Memory
    requires j <= |kernel| && StepsInRange(kernel, |layout|)
  {
    if j == 0 then m else AfterStep(AfterSteps(m, layout, kernel, j - 1), layout, kernel[j - 1])
  }

  /** What happens to memory when buffers grow or move: the bytes below the arenas' high-water marks
      stay, those above may become anything. */
  ghost predicate Keeps(p: Plan, m: Memory, m': Memory) {
    forall c :: Below(p, c) ==> m'(c) == m(c)
  }

  predicate Below(p: Plan, c: Cell) {
    match c.bank
    case Shared => c.at < p.rwHigh
    case Persistent => c.at < p.persistentHigh
    case Own(_) => true
  }

  /** The memory that two arenas with these bytes provide; `rest` is everything else. */
  function MemoryOf(shared: Bytes, persistent: Bytes, rest: Memory): Memory {
    (c: Cell) =>
      match c.bank
      case Shared => if c.at < |shared| then shared[c.at] else rest(c)
      case Persistent => if c.at < |persistent| then persistent[c.at] else rest(c)
      case Own(_) => rest(c)
  }

  ghost predicate SameOutside(rest: Memory, rest': Memory) {
    forall c: Cell :: c.bank.Own? ==> rest'(c) == rest(c)
  }

  /** Turning the bytes of two arenas into others is such a step, whatever lies outside them. */
  ghost predicate MayFollow(p: Plan, shared: Bytes, persistent: Bytes, shared': Bytes, persistent': Bytes) {
    forall rest: Memory, rest': Memory :: SameOutside(rest, rest') ==>
      Keeps(p, MemoryOf(shared, persistent, rest), MemoryOf(shared', persistent', rest'))
  }

  /** What committing the arenas again promises of their bytes is enough. */
  lemma CommitKeeps(p: Plan, shared: Bytes, persistent: Bytes, shared': Bytes, persistent': Bytes)
    requires p.rwHigh <= |shared| && p.rwHigh <= |shared'| && shared'[..p.rwHigh] == shared[..p.rwHigh]
    requires p.persistentHigh <= |persistent| && p.persistentHigh <= |persistent'|
    requires persistent'[..p.persistentHigh] == persistent[..p.persistentHigh]
    ensures MayFollow(p, shared, persistent, shared', persistent')
  {
    forall rest: Memory, rest': Memory, c | SameOutside(rest, rest') && Below(p, c)
      ensures MemoryOf(shared', persistent', rest')(c) == MemoryOf(shared, persistent, rest)(c)
    {
      if c.bank == Shared {
        assert shared'[..p.rwHigh][c.at] == shared[..p.rwHigh][c.at];
      } else if c.bank == Persistent {
        assert persistent'[..p.persistentHigh][c.at] == persistent[..p.persistentHigh][c.at];
      }
    }
  }

  // ----- Graphs the planner serves ---------------------------------------------------------------

  predicate IsTemporary(g: Graph, i: int, t: int) {
    0 <= i < |g.nodes| && t in g.nodes[i].temporaries
  }

  predicate UsedByGraph(g: Graph, t: int) {
    || t in g.inputs || t in g.outputs || t in g.variables
    || exists i :: 0 <= i < |g.nodes| && (g.Consumes(i, t) || g.Produces(i, t))
  }

  /** A temporary belongs to one node and the graph does not use it otherwise. */
  ghost predicate TemporariesArePrivate(g: Graph) {
    && (forall i, t :: IsTemporary(g, i, t) ==> !UsedByGraph(g, t))
    && (forall i, k, t :: IsTemporary(g, i, t) && IsTemporary(g, k, t) ==> i == k)
  }

  /** `t` has its value before node `i` runs. */
  ghost predicate Available(g: Graph, i: int, t: int)
    requires 0 <= t < |g.tensors|
  {
    || t in g.inputs || t in g.variables
    || (exists k :: 0 <= k < i && k < |g.nodes| && g.Produces(k, t))
    || (g.tensors[t].kind == Other && forall k :: 0 <= k < |g.nodes| ==> !g.Produces(k, t))
  }

  /** Nodes read only what is available, and nothing is produced after its last consumer. */
  ghost predicate Topological(g: Graph)
    requires g.InRange()
  {
    && (forall i, t :: 0 <= i < |g.nodes| && g.Consumes(i, t) && t != OPTIONAL_TENSOR ==>
          g.IsTensor(t) && Available(g, i, t))
    && (forall i, t, d :: 0 <= i < |g.nodes| && g.Produces(i, t) && LastConsumer(g, t, d) ==> i <= d)
  }

  /** The usual reason why nothing is produced too late: one producer a tensor, which is not a
      graph input, and every consumer after it. */
  lemma SingleProducerIsEnough(g: Graph)
    requires g.InRange()
    requires forall i, t :: 0 <= i < |g.nodes| && g.Consumes(i, t) && t != OPTIONAL_TENSOR ==>
               g.IsTensor(t) && Available(g, i, t)
    requires forall i, k, t :: 0 <= i < k < |g.nodes| && g.Produces(i, t) ==> !g.Produces(k, t)
    requires forall i, t :: 0 <= i < |g.nodes| && g.Produces(i, t) ==> t !in g.inputs && t !in g.variables
    ensures Topological(g)
  {
    forall i, t, d | 0 <= i < |g.nodes| && g.Produces(i, t) && LastConsumer(g, t, d) ensures i <= d {
      assert g.NodeInRange(g.nodes[i]);
      assert g.Consumes(d, t) && Available(g, d, t);
    }
  }

  /** A kernel writes outputs, temporaries and variables of its node, reads inputs and what it has
      written itself, and writes every output. */
  ghost predicate KernelFits(g: Graph, i: int, kernel: Kernel)
    requires 0 <= i < |g.nodes|
  {
    && StepsInRange(kernel, |g.tensors|)
    && (forall j :: 0 <= j < |kernel| ==> MayWrite(g, i, kernel[j].target))
    && (forall j, k :: 0 <= j < |kernel| && 0 <= k < |kernel[j].sources| ==>
          g.Consumes(i, kernel[j].sources[k]) || Wrote(kernel, j, kernel[j].sources[k]))
    && (forall t :: g.Produces(i, t) ==> Wrote(kernel, |kernel|, t))
  }

  ghost predicate MayWrite(g: Graph, i: int, t: int)
    requires 0 <= i < |g.nodes|
  {
    g.Produces(i, t) || IsTemporary(g, i, t) || t in g.variables
  }

  /** One of the first `j` steps writes `t`. */
  predicate Wrote(kernel: Kernel, j: nat, t: int)
    requires j <= |kernel|
  {
    exists h :: 0 <= h < j && kernel[h].target == t
  }

  // ----- A run over plans -------------------------------------------------------------------------

  /** `plans[i]` is the plan that node `i` runs in, and the last one the plan after the run; with
      dynamic tensors a plan may have been extended since the node before. `alloc` and `dealloc` are
      the lifetimes, temporaries included. */
  datatype Setting = Setting(
    g: Graph,
    options: Options,
    alignment: nat,
    alloc: seq<int>,
    dealloc: seq<int>,
    plans: seq<Plan>,
    program: seq<Kernel>)
  {
    function First(t: int): int
      requires 0 <= t < |g.tensors| == |alloc|
    {
      if g.tensors[t].kind == Other then 0 else alloc[t]
    }

    function Last(t: int): int
      requires 0 <= t < |g.tensors| == |dealloc|
    {
      if g.tensors[t].kind == ArenaRw then dealloc[t] else NOT_ASSIGNED
    }

    predicate AliveAt(i: int, t: int)
      requires 0 <= t < |g.tensors| == |alloc| == |dealloc|
    {
      First(t) <= i <= Last(t)
    }

    ghost predicate Valid() {
      && g.InRange() && |g.nodes| < NOT_ASSIGNED
      && Topological(g) && TemporariesArePrivate(g)
      && Sized()
      && (forall i :: 0 <= i < |g.nodes| ==> KernelFits(g, i, program[i]))
      && |alloc| == |dealloc| == |g.tensors|
      && (forall t :: 0 <= t < |g.tensors| ==> LifetimeOf(t))
      && (forall i :: 0 <= i < |g.nodes| ==> PlanServes(i))
      && (forall i :: 0 < i < |plans| ==> PlanStays(i))
    }

    ghost predicate LifetimeOf(t: int)
      requires 0 <= t < |g.tensors| == |alloc| == |dealloc|
    {
      && (forall i :: IsTemporary(g, i, t) ==> alloc[t] == dealloc[t] == i)
      && ((forall i :: !IsTemporary(g, i, t)) ==>
            ComesAliveAt(g, t, alloc[t]) && DiesAt(g, options, t, alloc[t], dealloc[t]))
    }

    /** The plan of node `i` is sound and holds every arena tensor alive there, with its size. */
    ghost predicate PlanServes(i: int)
      requires 0 <= i < |plans| && |alloc| == |dealloc| == |g.tensors|
    {
      && Inv(plans[i], KindsOf(g), alignment, {})
      && forall t :: 0 <= t < |g.tensors| && g.tensors[t].kind != Other && AliveAt(i, t) ==>
           && plans[i].allocs[t].size == g.tensors[t].bytes
           && plans[i].allocs[t].firstNode == alloc[t] && plans[i].allocs[t].lastNode == Last(t)
    }

    /** Extending the plan for node `i` moved nothing that came alive earlier. */
    ghost predicate PlanStays(i: int)
      requires 0 < i < |plans| && |alloc| == |dealloc| == |g.tensors|
    {
      && |plans[i - 1].allocs| == |plans[i].allocs| == |g.tensors|
      && forall t :: 0 <= t < |g.tensors| && g.tensors[t].kind != Other && alloc[t] < i ==>
           plans[i].allocs[t] == plans[i - 1].allocs[t]
    }

    function LayoutOf(p: Plan): (layout: Layout)
      requires |p.allocs| == |g.tensors|
      ensures |layout| == |g.tensors|
    {
      seq(|g.tensors|, t requires 0 <= t < |g.tensors| =>
        match g.tensors[t].kind
        case ArenaRw => Region(Shared, p.allocs[t].offset, p.allocs[t].size)
        case ArenaRwPersistent => Region(Persistent, p.allocs[t].offset, p.allocs[t].size)
        case Other => Region(Own(t), 0, g.tensors[t].bytes))
    }

    function PrivateLayout(): (layout: Layout)
      ensures |layout| == |g.tensors|
    {
      seq(|g.tensors|, t requires 0 <= t < |g.tensors| => Region(Own(t), 0, g.tensors[t].bytes))
    }

    ghost predicate Sized() {
      && |program| == |g.nodes| && |plans| == |g.nodes| + 1
      && (forall i :: 0 <= i < |plans| ==> |plans[i].allocs| == |g.tensors|)
      && (forall i :: 0 <= i < |program| ==> StepsInRange(program[i], |g.tensors|))
    }
  }

  // ----- Why lifetimes suffice ---------------------------------------------------------------------

  lemma AvailableHasBegun(s: Setting, i: int, t: int)
    requires s.Valid() && 0 <= i <= |s.g.nodes| && 0 <= t < |s.g.tensors| && Available(s.g, i, t)
    ensures s.First(t) <= i
  {
    var g := s.g;
    assert s.LifetimeOf(t);
    if k :| IsTemporary(g, k, t) {
      assert !UsedByGraph(g, t);
      assert forall k :: 0 <= k < |g.nodes| ==> !g.Produces(k, t);
    }
  }

  lemma ReadsAreAlive(s: Setting, i: int, t: int)
    requires s.Valid() && 0 <= i < |s.g.nodes| && s.g.Consumes(i, t) && t != OPTIONAL_TENSOR
    ensures 0 <= t < |s.g.tensors| && Available(s.g, i, t) && s.AliveAt(i, t)
  {
    assert s.g.IsTensor(t) && Available(s.g, i, t);
    AvailableHasBegun(s, i, t);
    assert s.LifetimeOf(t);
    assert UsedByGraph(s.g, t);
  }

  lemma {:induction false} LastConsumerExists(g: Graph, t: int, i: nat, n: nat)
    requires i < n <= |g.nodes| && g.Consumes(i, t) && forall k :: n <= k < |g.nodes| ==> !g.Consumes(k, t)
    ensures exists d :: LastConsumer(g, t, d)
    decreases n
  {
    if g.Consumes(n - 1, t) {
      assert LastConsumer(g, t, n - 1);
    } else {
      LastConsumerExists(g, t, i, n - 1);
    }
  }

  lemma WritesAreAlive(s: Setting, i: int, t: int)
    requires s.Valid() && 0 <= i < |s.g.nodes| && 0 <= t < |s.g.tensors| && MayWrite(s.g, i, t)
    ensures s.AliveAt(i, t)
  {
    assert s.LifetimeOf(t);
    if !IsTemporary(s.g, i, t) {
      assert UsedByGraph(s.g, t);
    }
  }

  /** Two tensors alive at a common node lie apart in that node's layout. */
  lemma AliveLieApart(s: Setting, i: int, t: int, u: int)
    requires s.Valid() && 0 <= i < |s.g.nodes| && 0 <= t < |s.g.tensors| && 0 <= u < |s.g.tensors| && t != u
    requires s.AliveAt(i, t) && s.AliveAt(i, u)
    ensures |s.plans[i].allocs| == |s.g.tensors|
    ensures var layout := s.LayoutOf(s.plans[i]); Apart(layout[t], layout[u])
  {
    assert s.PlanServes(i);
    var p, kinds := s.plans[i], KindsOf(s.g);
    if kinds[t] == kinds[u] && kinds[t] != Other && p.allocs[t].size != 0 && p.allocs[u].size != 0 {
      LiveTensorsAreDisjoint(p, kinds, s.alignment, t, u);
    }
  }

  // ----- The two runs agree ------------------------------------------------------------------------

  /** The tensors whose contents matter before node `i`. */
  ghost predicate Matters(s: Setting, i: int, t: int)
    requires |s.g.tensors| == |s.dealloc|
  {
    0 <= t < |s.g.tensors| && Available(s.g, i, t) && i <= s.Last(t)
  }

  ghost predicate SameContents(s: Setting, p: Plan, m: Memory, m': Memory, t: int)
    requires |p.allocs| == |s.g.tensors| && 0 <= t < |s.g.tensors|
  {
    Load(m, s.LayoutOf(p)[t]) == Load(m', s.PrivateLayout()[t])
  }

  /** A step in two memories that agree on its operands: what it writes agrees, and so does what lies
      apart from that and agreed before. */
  lemma StepAgrees(m: Memory, m': Memory, layout: Layout, layout': Layout, step: Step, t: int)
    requires |layout| == |layout'| && 0 <= step.target < |layout| && 0 <= t < |layout|
    requires forall k :: 0 <= k < |step.sources| ==> 0 <= step.sources[k] < |layout|
    requires Operands(m, layout, step.sources) == Operands(m', layout', step.sources)
    requires layout[step.target].size == layout'[step.target].size
    requires t != step.target ==>
               && Apart(layout[step.target], layout[t]) && Apart(layout'[step.target], layout'[t])
               && Load(m, layout[t]) == Load(m', layout'[t])
    ensures Load(AfterStep(m, layout, step), layout[t]) == Load(AfterStep(m', layout', step), layout'[t])
  {
    var w, v := step.target, Computed(step, Operands(m, layout, step.sources), layout[step.target].size);
    if t == w {
      LoadStored(m, layout[w], v);
      LoadStored(m', layout'[w], v);
    } else {
      LoadElsewhere(m, layout[w], v, layout[t]);
      LoadElsewhere(m', layout'[w], v, layout'[t]);
    }
  }

  /** What a step of node `i` writes lies apart from every other tensor alive there, in both layouts. */
  lemma WritesLieApart(s: Setting, i: int, w: int, t: int)
    requires s.Valid() && 0 <= i < |s.g.nodes| && 0 <= w < |s.g.tensors| && MayWrite(s.g, i, w)
    requires 0 <= t < |s.g.tensors| && s.AliveAt(i, t)
    ensures |s.plans[i].allocs| == |s.g.tensors|
    ensures var layout, private := s.LayoutOf(s.plans[i]), s.PrivateLayout();
            && layout[w].size == private[w].size
            && (t != w ==> Apart(layout[w], layout[t]) && Apart(private[w], private[t]))
  {
    WritesAreAlive(s, i, w);
    assert s.PlanServes(i);
    if t != w {
      AliveLieApart(s, i, w, t);
    }
  }

  /** The first `j` steps of a kernel touch `t`, or it was there before. */
  ghost predicate Touched(kernel: Kernel, before: set<int>, j: nat, t: int)
    requires j <= |kernel|
  {
    t in before || Wrote(kernel, j, t)
  }

  /** Steps read what was there before or has been written, and write apart from everything else. */
  ghost predicate RunsIn(kernel: Kernel, layout: Layout, layout': Layout, before: set<int>) {
    && |layout| == |layout'| && StepsInRange(kernel, |layout|)
    && (forall j, k :: 0 <= j < |kernel| && 0 <= k < |kernel[j].sources| ==>
          Touched(kernel, before, j, kernel[j].sources[k]))
    && (forall j, t :: 0 <= j < |kernel| && Touched(kernel, before, |kernel|, t) ==>
          SeparateFrom(layout, layout', kernel[j].target, t))
  }

  ghost predicate SeparateFrom(layout: Layout, layout': Layout, w: int, t: int) {
    && |layout| == |layout'| && 0 <= w < |layout| && 0 <= t < |layout|
    && layout[w].size == layout'[w].size
    && (t != w ==> Apart(layout[w], layout[t]) && Apart(layout'[w], layout'[t]))
  }

  /** What was there before a kernel, and what its first `j` steps wrote, agree. */
  lemma {:induction false} StepsAgree(kernel: Kernel, layout: Layout, layout': Layout, before: set<int>, m: Memory,
                                      m': Memory, j: nat, t: int)
    requires RunsIn(kernel, layout, layout', before) && j <= |kernel| && Touched(kernel, before, j, t)
    requires forall u :: u in before ==> 0 <= u < |layout| && Load(m, layout[u]) == Load(m', layout'[u])
    ensures 0 <= t < |layout|
    ensures Load(AfterSteps(m, layout, kernel, j), layout[t]) == Load(AfterSteps(m', layout', kernel, j), layout'[t])
    decreases j, 0
  {
    if j > 0 {
      var step := kernel[j - 1];
      assert Touched(kernel, before, |kernel|, t);
      assert SeparateFrom(layout, layout', step.target, t);
      StepOperandsAgree(kernel, layout, layout', before, m, m', j - 1);
      if t != step.target {
        StepsAgree(kernel, layout, layout', before, m, m', j - 1, t);
      }
      StepAgrees(AfterSteps(m, layout, kernel, j - 1), AfterSteps(m', layout', kernel, j - 1),
                 layout, layout', step, t);
    }
  }

  lemma {:induction false} StepOperandsAgree(kernel: Kernel, layout: Layout, layout': Layout, before: set<int>,
                                             m: Memory, m': Memory, j: nat)
    requires RunsIn(kernel, layout, layout', before) && j < |kernel|
    requires forall u :: u in before ==> 0 <= u < |layout| && Load(m, layout[u]) == Load(m', layout'[u])
    ensures Operands(AfterSteps(m, layout, kernel, j), layout, kernel[j].sources)
         == Operands(AfterSteps(m', layout', kernel, j), layout', kernel[j].sources)
    decreases j, 1
  {
    var sources := kernel[j].sources;
    forall k | 0 <= k < |sources|
      ensures Load(AfterSteps(m, layout, kernel, j), layout[sources[k]])
           == Load(AfterSteps(m', layout', kernel, j), layout'[sources[k]])
    {
      assert Touched(kernel, before, j, sources[k]);
      StepsAgree(kernel, layout, layout', before, m, m', j, sources[k]);
    }
  }

  ghost function MatteringAt(s: Setting, i: int): set<int>
    requires |s.g.tensors| == |s.dealloc|
  {
    set t | 0 <= t < |s.g.tensors| && Matters(s, i, t)
  }

  lemma TouchedIsAlive(s: Setting, i: int, t: int)
    requires s.Valid() && 0 <= i < |s.g.nodes|
    requires Touched(s.program[i], MatteringAt(s, i), |s.program[i]|, t)
    ensures 0 <= t < |s.g.tensors| && s.AliveAt(i, t)
  {
    assert KernelFits(s.g, i, s.program[i]);
    if Matters(s, i, t) {
      AvailableHasBegun(s, i, t);
    } else {
      WritesAreAlive(s, i, t);
    }
  }

  /** Every node of a valid setting runs in its plan's layout as in the private one. */
  lemma NodeRunsIn(s: Setting, i: int)
    requires s.Valid() && 0 <= i < |s.g.nodes|
    ensures |s.plans[i].allocs| == |s.g.tensors|
    ensures RunsIn(s.program[i], s.LayoutOf(s.plans[i]), s.PrivateLayout(), MatteringAt(s, i))
  {
    var kernel, before := s.program[i], MatteringAt(s, i);
    assert KernelFits(s.g, i, kernel);
    forall j, k | 0 <= j < |kernel| && 0 <= k < |kernel[j].sources|
      ensures Touched(kernel, before, j, kernel[j].sources[k])
    {
      if s.g.Consumes(i, kernel[j].sources[k]) {
        ReadsAreAlive(s, i, kernel[j].sources[k]);
      }
    }
    forall j, t | 0 <= j < |kernel| && Touched(kernel, before, |kernel|, t)
      ensures SeparateFrom(s.LayoutOf(s.plans[i]), s.PrivateLayout(), kernel[j].target, t)
    {
      TouchedIsAlive(s, i, t);
      WritesLieApart(s, i, kernel[j].target, t);
    }
  }

  /** A run in shared memory: `mems[i]` is the memory that node `i` starts in, and the last one the
      memory after the run. Between two nodes buffers may grow and move. */
  ghost predicate SharedRun(s: Setting, mems: seq<Memory>)
    requires s.Sized()
  {
    |mems| == |s.g.nodes| + 1 && forall i :: 0 <= i < |s.g.nodes| ==> Moves(s, mems, i)
  }

  ghost predicate Moves(s: Setting, mems: seq<Memory>, i: int)
    requires s.Sized() && 0 <= i < |s.g.nodes| && |mems| == |s.g.nodes| + 1
  {
    Keeps(s.plans[i], AfterSteps(mems[i], s.LayoutOf(s.plans[i]), s.program[i], |s.program[i]|), mems[i + 1])
  }

  /** The memory after the first `n` nodes with a private buffer for every tensor. */
  function PrivateRun(s: Setting, m: Memory, n: nat): Memory
    requires s.Sized() && n <= |s.program|
  {
    if n == 0 then m else AfterSteps(PrivateRun(s, m, n - 1), s.PrivateLayout(), s.program[n - 1], |s.program[n - 1]|)
  }

  /** Growing and moving buffers does not touch a planned tensor. */
  lemma MoveKeepsContents(s: Setting, i: int, m: Memory, m': Memory, t: int)
    requires s.Valid() && 0 <= i < |s.g.nodes| && 0 <= t < |s.g.tensors| && Keeps(s.plans[i], m, m')
    ensures |s.plans[i].allocs| == |s.g.tensors|
    ensures Load(m', s.LayoutOf(s.plans[i])[t]) == Load(m, s.LayoutOf(s.plans[i])[t])
  {
    assert s.PlanServes(i);
    RecordsAreInside(s.plans[i], KindsOf(s.g), s.alignment, t);
    var r := s.LayoutOf(s.plans[i])[t];
    forall k | 0 <= k < r.size ensures Load(m', r)[k] == Load(m, r)[k] {
      assert Below(s.plans[i], Cell(r.bank, r.start + k));
    }
  }

  /** Everything that matters before node `i` has the same contents in both memories. */
  ghost predicate Agree(s: Setting, i: int, m: Memory, m': Memory)
    requires s.Sized() && |s.g.tensors| == |s.dealloc| && 0 <= i <= |s.g.nodes|
  {
    forall t :: Matters(s, i, t) ==> SameContents(s, s.plans[i], m, m', t)
  }

  /** Graph inputs, variables and constants have the same contents to begin with. */
  ghost predicate SameStart(s: Setting, m: Memory, m': Memory)
    requires s.Sized() && |s.g.tensors| == |s.dealloc|
  {
    Agree(s, 0, m, m')
  }

  /** Running node `n - 1` from memories that agree on what matters before it, and moving on to `next`. */
  lemma NodeAgrees(s: Setting, n: nat, m: Memory, m': Memory, next: Memory, t: int)
    requires s.Valid() && 0 < n <= |s.g.nodes| && Agree(s, n - 1, m, m') && Matters(s, n, t)
    requires Keeps(s.plans[n - 1], AfterSteps(m, s.LayoutOf(s.plans[n - 1]), s.program[n - 1], |s.program[n - 1]|),
                   next)
    ensures SameContents(s, s.plans[n], next,
                         AfterSteps(m', s.PrivateLayout(), s.program[n - 1], |s.program[n - 1]|), t)
  {
    var i, k := n - 1, |s.program[n - 1]|;
    assert KernelFits(s.g, i, s.program[i]);
    assert Matters(s, i, t) || s.g.Produces(i, t);
    NodeRunsIn(s, i);
    StepsAgree(s.program[i], s.LayoutOf(s.plans[i]), s.PrivateLayout(), MatteringAt(s, i), m, m', k, t);
    MoveKeepsContents(s, i, AfterSteps(m, s.LayoutOf(s.plans[i]), s.program[i], k), next, t);
    TouchedIsAlive(s, i, t);
    assert s.PlanStays(n);
    assert s.LayoutOf(s.plans[n])[t] == s.LayoutOf(s.plans[i])[t];
  }

  /** The same of everything that matters before node `n`, the next one. */
  lemma NodesAgree(s: Setting, n: nat, m: Memory, m': Memory, next: Memory)
    requires s.Valid() && 0 < n <= |s.g.nodes| && Agree(s, n - 1, m, m')
    requires Keeps(s.plans[n - 1], AfterSteps(m, s.LayoutOf(s.plans[n - 1]), s.program[n - 1], |s.program[n - 1]|),
                   next)
    ensures Agree(s, n, next, AfterSteps(m', s.PrivateLayout(), s.program[n - 1], |s.program[n - 1]|))
  {
    forall t | Matters(s, n, t)
      ensures SameContents(s, s.plans[n], next,
                           AfterSteps(m', s.PrivateLayout(), s.program[n - 1], |s.program[n - 1]|), t)
    {
      NodeAgrees(s, n, m, m', next, t);
    }
  }

  /** Both runs agree on what matters before node `n`. */
  ghost predicate RunsAgreeAt(s: Setting, mems: seq<Memory>, m': Memory, n: nat)
    requires s.Sized() && |s.g.tensors| == |s.dealloc| && |mems| == |s.g.nodes| + 1 && n <= |s.g.nodes|
  {
    Agree(s, n, mems[n], PrivateRun(s, m', n))
  }

  lemma StartAgrees(s: Setting, mems: seq<Memory>, m': Memory, n: nat)
    requires s.Sized() && |s.g.tensors| == |s.dealloc| && |mems| == |s.g.nodes| + 1 && SameStart(s, mems[0], m')
    requires n == 0
    ensures RunsAgreeAt(s, mems, m', n)
  {
    assert PrivateRun(s, m', 0) == m';
  }

  lemma NextNodeAgrees(s: Setting, mems: seq<Memory>, m': Memory, n: nat)
    requires s.Valid() && SharedRun(s, mems) && 0 < n <= |s.g.nodes| && RunsAgreeAt(s, mems, m', n - 1)
    ensures RunsAgreeAt(s, mems, m', n)
  {
    assert Moves(s, mems, n - 1);
    NodesAgree(s, n, mems[n - 1], PrivateRun(s, m', n - 1), mems[n]);
  }

  /** Before node `n`, everything that still matters has the same contents in both runs. */
  lemma {:induction false} RunsAgree(s: Setting, mems: seq<Memory>, m': Memory, n: nat)
    requires s.Valid() && SharedRun(s, mems) && n <= |s.g.nodes| && SameStart(s, mems[0], m')
    ensures RunsAgreeAt(s, mems, m', n)
  {
    if n == 0 {
      StartAgrees(s, mems, m', n);
    } else {
      RunsAgree(s, mems, m', n - 1);
      NextNodeAgrees(s, mems, m', n);
    }
  }

  /** Sharing memory is invisible, even while its buffers grow and move: every node reads the same
      inputs as in a run with private buffers, and afterwards every tensor that never dies has the
      same contents. Graph outputs and variables are among those; so are graph inputs when inputs
      are preserved, and every tensor when intermediates are. */
  lemma SharedMemoryIsInvisible(s: Setting, mems: seq<Memory>, m': Memory)
    requires s.Valid() && SharedRun(s, mems) && SameStart(s, mems[0], m')
    ensures forall i, t :: 0 <= i < |s.g.nodes| && s.g.Consumes(i, t) && t != OPTIONAL_TENSOR ==>
              0 <= t < |s.g.tensors| && SameContents(s, s.plans[i], mems[i], PrivateRun(s, m', i), t)
    ensures forall t :: 0 <= t < |s.g.tensors| && Survives(s, t) ==>
              SameContents(s, s.plans[|s.g.nodes|], mems[|s.g.nodes|], PrivateRun(s, m', |s.g.nodes|), t)
  {
    forall i, t | 0 <= i < |s.g.nodes| && s.g.Consumes(i, t) && t != OPTIONAL_TENSOR
      ensures 0 <= t < |s.g.tensors| && SameContents(s, s.plans[i], mems[i], PrivateRun(s, m', i), t)
    {
      ReadsAreAlive(s, i, t);
      RunsAgree(s, mems, m', i);
    }
    RunsAgree(s, mems, m', |s.g.nodes|);
    forall t | 0 <= t < |s.g.tensors| && Survives(s, t) ensures Matters(s, |s.g.nodes|, t) {
      assert s.LifetimeOf(t);
      assert UsedByGraph(s.g, t);
    }
  }

  /** `t` has a value after the run, and the planner promises to keep it. */
  ghost predicate Survives(s: Setting, t: int)
    requires 0 <= t < |s.g.tensors|
  {
    UsedByGraph(s.g, t) && Available(s.g, |s.g.nodes|, t) && Kept(s.g, s.options, t)
  }
}
