/** When the planner lets a tensor come alive and when it lets it die: reference counting over
    the execution plan. */
module Lifetimes {
  import opened GraphInfo
  import opened MemoryArena

  const NOT_ASSIGNED: int := 0x7FFF_FFFF

  datatype Options = Options(preserveInputs: bool, preserveIntermediates: bool)

  /** References that no node takes back: graph outputs, variables and preserved inputs. */
  function HeldReferences(g: Graph, o: Options, t: int): nat {
    multiset(g.outputs)[t] + multiset(g.variables)[t] + (if o.preserveInputs then multiset(g.inputs)[t] else 0)
  }

  /** References to `t` by the inputs of nodes from `i` on. */
  function UsesFrom(g: Graph, i: nat, t: int): nat
    requires i <= |g.nodes|
    decreases |g.nodes| - i
  {
    if i == |g.nodes| then 0 else multiset(g.nodes[i].inputs)[t] + UsesFrom(g, i + 1, t)
  }

  /** The alloc node of `t` after the first `i` nodes. */
  function AllocUpTo(g: Graph, i: nat, t: int): int
    requires i <= |g.nodes|
  {
    if t in g.inputs || t in g.variables then 0
    else if i == 0 then NOT_ASSIGNED
    else if AllocUpTo(g, i - 1, t) == NOT_ASSIGNED && g.Produces(i - 1, t) then i - 1
    else AllocUpTo(g, i - 1, t)
  }

  /** The dealloc node of `t` after the first `i` nodes. */
  function DeallocUpTo(g: Graph, o: Options, i: nat, t: int): int
    requires i <= |g.nodes|
  {
    if i == 0 then NOT_ASSIGNED
    else if g.Consumes(i - 1, t) && Released(g, o, i, t) then i - 1
    else DeallocUpTo(g, o, i - 1, t)
  }

  predicate Released(g: Graph, o: Options, i: nat, t: int)
    requires i <= |g.nodes|
  {
    && !o.preserveIntermediates && HeldReferences(g, o, t) == 0
    && UsesFrom(g, i, t) == 0 && AllocUpTo(g, i, t) != NOT_ASSIGNED
  }

  // ----- What the two functions mean ----------------------------------------------------------

  /** Exactly when `t` comes alive: at the start for graph inputs and variables, otherwise at its
      first producer, and never when nothing produces it. */
  ghost predicate ComesAliveAt(g: Graph, t: int, a: int) {
    if t in g.inputs || t in g.variables then a == 0
    else if exists i :: 0 <= i < |g.nodes| && g.Produces(i, t) then
      && 0 <= a < |g.nodes| && g.Produces(a, t)
      && forall i :: 0 <= i < a ==> !g.Produces(i, t)
    else a == NOT_ASSIGNED
  }

  /** Tensors that must keep their bytes to the end. */
  predicate Kept(g: Graph, o: Options, t: int) {
    o.preserveIntermediates || t in g.outputs || t in g.variables || (o.preserveInputs && t in g.inputs)
  }

  ghost predicate LastConsumer(g: Graph, t: int, d: int) {
    && 0 <= d < |g.nodes| && g.Consumes(d, t)
    && forall i :: d < i < |g.nodes| ==> !g.Consumes(i, t)
  }

  /** Exactly when `t`, alive from `a`, may be overwritten: after its last consumer, unless it is
      kept or comes alive only after that. */
  ghost predicate DiesAt(g: Graph, o: Options, t: int, a: int, d: int) {
    if !Kept(g, o, t) && (exists i :: LastConsumer(g, t, i) && a <= i) then LastConsumer(g, t, d)
    else d == NOT_ASSIGNED
  }

  ghost predicate ExactLifetimes(g: Graph, o: Options, alloc: seq<int>, dealloc: seq<int>) {
    && |alloc| == |dealloc| == |g.tensors|
    && forall t :: 0 <= t < |g.tensors| ==>
         ComesAliveAt(g, t, alloc[t]) && DiesAt(g, o, t, alloc[t], dealloc[t])
  }

  lemma {:induction false} AllocMeaning(g: Graph, i: nat, t: int)
    requires i <= |g.nodes| < NOT_ASSIGNED
    requires t !in g.inputs && t !in g.variables
    ensures var a := AllocUpTo(g, i, t);
            if a == NOT_ASSIGNED then forall k :: 0 <= k < i ==> !g.Produces(k, t)
            else 0 <= a < i && g.Produces(a, t) && forall k :: 0 <= k < a ==> !g.Produces(k, t)
  {
    if i > 0 {
      AllocMeaning(g, i - 1, t);
    }
  }

  lemma {:induction false} UsesMeaning(g: Graph, i: nat, t: int)
    requires i <= |g.nodes|
    ensures UsesFrom(g, i, t) == 0 <==> forall k :: i <= k < |g.nodes| ==> !g.Consumes(k, t)
    decreases |g.nodes| - i
  {
    if i < |g.nodes| {
      UsesMeaning(g, i + 1, t);
      assert g.Consumes(i, t) <==> multiset(g.nodes[i].inputs)[t] > 0;
    }
  }

  lemma {:induction false} UsesShrink(g: Graph, i: nat, j: nat, t: int)
    requires i <= j <= |g.nodes|
    ensures UsesFrom(g, j, t) <= UsesFrom(g, i, t)
    decreases j - i
  {
    if i < j {
      UsesShrink(g, i + 1, j, t);
    }
  }

  /** A tensor that still has uses has not been released. */
  lemma {:induction false} NotYetReleased(g: Graph, o: Options, i: nat, t: int)
    requires i <= |g.nodes| < NOT_ASSIGNED
    ensures DeallocUpTo(g, o, i, t) != NOT_ASSIGNED ==>
              UsesFrom(g, i, t) == 0 && HeldReferences(g, o, t) == 0 && AllocUpTo(g, i, t) != NOT_ASSIGNED
    ensures DeallocUpTo(g, o, i, t) == NOT_ASSIGNED || 0 <= DeallocUpTo(g, o, i, t) < i
  {
    if i > 0 {
      NotYetReleased(g, o, i - 1, t);
      UsesShrink(g, i - 1, i, t);
    }
  }

  lemma {:induction false} DeallocMeaning(g: Graph, o: Options, i: nat, t: int)
    requires i <= |g.nodes| < NOT_ASSIGNED
    ensures var d := DeallocUpTo(g, o, i, t);
            if d == NOT_ASSIGNED then forall k :: 0 <= k < i && g.Consumes(k, t) ==> !Released(g, o, k + 1, t)
            else 0 <= d < i && g.Consumes(d, t) && Released(g, o, d + 1, t)
  {
    if i > 0 {
      DeallocMeaning(g, o, i - 1, t);
    }
  }

  lemma {:induction false} AllocSettles(g: Graph, i: nat, j: nat, t: int)
    requires i <= j <= |g.nodes| < NOT_ASSIGNED
    ensures AllocUpTo(g, i, t) != NOT_ASSIGNED ==> AllocUpTo(g, j, t) == AllocUpTo(g, i, t)
    decreases j - i
  {
    if i < j {
      AllocSettles(g, i, j - 1, t);
    }
  }

  lemma DeallocIsExact(g: Graph, o: Options, t: int)
    requires |g.nodes| < NOT_ASSIGNED
    ensures DiesAt(g, o, t, AllocUpTo(g, |g.nodes|, t), DeallocUpTo(g, o, |g.nodes|, t))
  {
    var n := |g.nodes|;
    var a, d := AllocUpTo(g, n, t), DeallocUpTo(g, o, n, t);
    DeallocMeaning(g, o, n, t);
    if d != NOT_ASSIGNED {
      UsesMeaning(g, d + 1, t);
      AllocSettles(g, d + 1, n, t);
      assert a <= d by { AliveBefore(g, d + 1, t); }
      assert LastConsumer(g, t, d);
    } else if exists i :: LastConsumer(g, t, i) && a <= i {
      var i :| LastConsumer(g, t, i) && a <= i;
      UsesMeaning(g, i + 1, t);
      assert !Released(g, o, i + 1, t);
      AllocatedBy(g, i + 1, t);
    }
  }

  /** The counting functions give exactly the lifetimes above. */
  lemma LifetimesAreExact(g: Graph, o: Options, t: int)
    requires |g.nodes| < NOT_ASSIGNED
    ensures var n := |g.nodes|;
            ComesAliveAt(g, t, AllocUpTo(g, n, t)) && DiesAt(g, o, t, AllocUpTo(g, n, t), DeallocUpTo(g, o, n, t))
  {
    if t !in g.inputs && t !in g.variables {
      AllocMeaning(g, |g.nodes|, t);
    }
    DeallocIsExact(g, o, t);
  }

  lemma AliveBefore(g: Graph, i: nat, t: int)
    requires 0 < i <= |g.nodes| < NOT_ASSIGNED
    ensures AllocUpTo(g, i, t) != NOT_ASSIGNED ==> AllocUpTo(g, i, t) < i
  {
    if t !in g.inputs && t !in g.variables {
      AllocMeaning(g, i, t);
    }
  }

  /** A tensor whose final alloc node is before `i` has it by then. */
  lemma AllocatedBy(g: Graph, i: nat, t: int)
    requires i <= |g.nodes| < NOT_ASSIGNED
    ensures AllocUpTo(g, |g.nodes|, t) < i ==> AllocUpTo(g, i, t) != NOT_ASSIGNED
  {
    if t !in g.inputs && t !in g.variables {
      AllocMeaning(g, |g.nodes|, t);
      AllocMeaning(g, i, t);
    }
  }

  // ----- The loops of `PlanAllocations` --------------------------------------------------------

  /** One reference for every occurrence in a list; optional entries are skipped. */
  method AddReferences(refcounts: seq<int>, tensors: seq<int>) returns (r: seq<int>)
    requires forall t :: t in tensors ==> t == OPTIONAL_TENSOR || 0 <= t < |refcounts|
    ensures |r| == |refcounts|
    ensures forall t :: 0 <= t < |r| ==> r[t] == refcounts[t] + multiset(tensors)[t]
  {
    r := refcounts;
    for j := 0 to |tensors|
      invariant |r| == |refcounts|
      invariant forall t :: 0 <= t < |r| ==> r[t] == refcounts[t] + multiset(tensors[..j])[t]
    {
      assert tensors[..j + 1] == tensors[..j] + [tensors[j]];
      var t := tensors[j];
      assert t in tensors;
      if t != OPTIONAL_TENSOR {
        r := r[t := r[t] + 1];
      }
    }
    assert tensors[..|tensors|] == tensors;
  }

  /** `allocate`: gives every listed tensor without an alloc node the node `node`. */
  method AllocateAll(alloc: seq<int>, dealloc: seq<int>, tensors: seq<int>, node: nat)
    returns (status: Status, r: seq<int>)
    requires |alloc| == |dealloc| && node != NOT_ASSIGNED
    requires forall t :: t in tensors ==> t == OPTIONAL_TENSOR || 0 <= t < |alloc|
    requires forall t :: 0 <= t < |alloc| && alloc[t] == NOT_ASSIGNED ==> dealloc[t] == NOT_ASSIGNED
    ensures status == Ok && |r| == |alloc|
    ensures forall t :: 0 <= t < |r| ==>
              r[t] == if alloc[t] == NOT_ASSIGNED && t in tensors then node else alloc[t]
  {
    r := alloc;
    for j := 0 to |tensors|
      invariant |r| == |alloc|
      invariant forall t :: 0 <= t < |r| ==>
                  r[t] == if alloc[t] == NOT_ASSIGNED && t in tensors[..j] then node else alloc[t]
    {
      var t := tensors[j];
      assert t in tensors;
      if t != OPTIONAL_TENSOR && r[t] == NOT_ASSIGNED {
        if dealloc[t] != NOT_ASSIGNED {
          return Error, r;
        }
        r := r[t := node];
      }
    }
    status := Ok;
  }

  /** Occurrences of `t` in a list from place `j` on. */
  function CountFrom(tensors: seq<int>, j: nat, t: int): nat
    requires j <= |tensors|
    decreases |tensors| - j
  {
    if j == |tensors| then 0 else (if tensors[j] == t then 1 else 0) + CountFrom(tensors, j + 1, t)
  }

  lemma {:induction false} CountIsMultiplicity(tensors: seq<int>, j: nat, t: int)
    requires j <= |tensors|
    ensures CountFrom(tensors, j, t) == multiset(tensors[j..])[t]
    decreases |tensors| - j
  {
    if j < |tensors| {
      CountIsMultiplicity(tensors, j + 1, t);
      assert tensors[j..] == [tensors[j]] + tensors[j + 1..];
    }
  }

  lemma CountsOfInputs(g: Graph, o: Options, i: nat, t: int)
    requires i < |g.nodes| < NOT_ASSIGNED
    ensures UsesFrom(g, i, t) == CountFrom(g.nodes[i].inputs, 0, t) + UsesFrom(g, i + 1, t)
    ensures g.Consumes(i, t) <==> CountFrom(g.nodes[i].inputs, 0, t) > 0
    ensures CountFrom(g.nodes[i].inputs, 0, t) > 0 ==> DeallocUpTo(g, o, i, t) == NOT_ASSIGNED
  {
    var inputs := g.nodes[i].inputs;
    CountIsMultiplicity(inputs, 0, t);
    assert inputs[0..] == inputs;
    NotYetReleased(g, o, i, t);
  }

  lemma {:induction false} CountFromShrinks(tensors: seq<int>, j: nat, t: int)
    requires j <= |tensors|
    ensures CountFrom(tensors, j, t) <= CountFrom(tensors, 0, t)
  {
    if j > 0 {
      CountFromShrinks(tensors, j - 1, t);
    }
  }

  /** Takes back the references of one node's inputs and lets die what has none left. */
  method ReleaseInputs(g: Graph, o: Options, i: nat, alloc: seq<int>, dealloc: seq<int>, refcounts: seq<int>)
    returns (status: Status, d: seq<int>, r: seq<int>)
    requires g.InRange() && i < |g.nodes| < NOT_ASSIGNED && !o.preserveIntermediates
    requires |alloc| == |dealloc| == |refcounts| == |g.tensors|
    requires forall t :: 0 <= t < |alloc| ==> alloc[t] == AllocUpTo(g, i + 1, t)
    requires forall t :: 0 <= t < |alloc| ==> dealloc[t] == DeallocUpTo(g, o, i, t)
    requires forall t :: 0 <= t < |alloc| ==> refcounts[t] == HeldReferences(g, o, t) + UsesFrom(g, i, t)
    ensures status == Ok
    ensures |d| == |r| == |g.tensors|
    ensures forall t :: 0 <= t < |alloc| ==> d[t] == DeallocUpTo(g, o, i + 1, t)
    ensures forall t :: 0 <= t < |alloc| ==> r[t] == HeldReferences(g, o, t) + UsesFrom(g, i + 1, t)
  {
    forall t ensures UsesFrom(g, i, t) == CountFrom(g.nodes[i].inputs, 0, t) + UsesFrom(g, i + 1, t)
      ensures g.Consumes(i, t) <==> CountFrom(g.nodes[i].inputs, 0, t) > 0
      ensures CountFrom(g.nodes[i].inputs, 0, t) > 0 ==> DeallocUpTo(g, o, i, t) == NOT_ASSIGNED
    {
      CountsOfInputs(g, o, i, t);
    }
    ghost var kept := seq(|g.tensors|, t requires 0 <= t < |g.tensors| =>
                                         HeldReferences(g, o, t) + UsesFrom(g, i + 1, t));
    assert g.NodeInRange(g.nodes[i]);
    status, d, r := ReleaseReferences(i, g.nodes[i].inputs, alloc, dealloc, refcounts, kept);
  }

  /** The loop over the inputs of node `i`; `kept` are the references that stay. */
  method ReleaseReferences(i: nat, inputs: seq<int>, alloc: seq<int>, dealloc: seq<int>, refcounts: seq<int>,
                           ghost kept: seq<int>)
    returns (status: Status, d: seq<int>, r: seq<int>)
    requires |alloc| == |dealloc| == |refcounts| == |kept|
    requires forall t :: t in inputs ==> t == OPTIONAL_TENSOR || 0 <= t < |alloc|
    requires forall t :: 0 <= t < |alloc| ==> kept[t] >= 0 && refcounts[t] == kept[t] + CountFrom(inputs, 0, t)
    requires forall t :: 0 <= t < |alloc| && CountFrom(inputs, 0, t) > 0 ==> dealloc[t] == NOT_ASSIGNED
    ensures status == Ok && |d| == |alloc| && r == kept
    ensures forall t :: 0 <= t < |d| ==>
              d[t] == if CountFrom(inputs, 0, t) > 0 && kept[t] == 0 && alloc[t] != NOT_ASSIGNED then i else dealloc[t]
  {
    d, r := dealloc, refcounts;
    for j := 0 to |inputs|
      invariant |d| == |r| == |alloc|
      invariant forall t :: 0 <= t < |r| ==> r[t] == kept[t] + CountFrom(inputs, j, t)
      invariant forall t :: 0 <= t < |d| ==>
                  d[t] == if CountFrom(inputs, 0, t) > 0 && r[t] == 0 && alloc[t] != NOT_ASSIGNED then i else dealloc[t]
    {
      var t := inputs[j];
      assert t in inputs;
      CountFromShrinks(inputs, j, t);
      if t != OPTIONAL_TENSOR {
        r := r[t := r[t] - 1];
        if r[t] == 0 && alloc[t] != NOT_ASSIGNED {
          if d[t] != NOT_ASSIGNED {
            return Error, d, r;
          }
          d := d[t := i];
        }
      }
    }
    status := Ok;
  }

  /** The references of a tensor: the list that holds it and every input it is. */
  method CountReferences(g: Graph, o: Options) returns (refcounts: seq<int>)
    requires g.InRange()
    ensures |refcounts| == |g.tensors|
    ensures forall t :: 0 <= t < |refcounts| ==> refcounts[t] == HeldReferences(g, o, t) + UsesFrom(g, 0, t)
  {
    refcounts := seq(|g.tensors|, _ => 0);
    refcounts := AddReferences(refcounts, g.outputs);
    refcounts := AddReferences(refcounts, g.variables);
    if o.preserveInputs {
      refcounts := AddReferences(refcounts, g.inputs);
    }
    for i := 0 to |g.nodes|
      invariant |refcounts| == |g.tensors|
      invariant forall t :: 0 <= t < |refcounts| ==>
                  refcounts[t] == HeldReferences(g, o, t) + UsesFrom(g, 0, t) - UsesFrom(g, i, t)
    {
      refcounts := AddReferences(refcounts, g.nodes[i].inputs);
    }
  }

  /** The reference-counting pass: it never fails, and its result is exact. */
  method PlanLifetimes(g: Graph, o: Options) returns (status: Status, alloc: seq<int>, dealloc: seq<int>)
    requires g.InRange() && |g.nodes| < NOT_ASSIGNED
    ensures status == Ok && ExactLifetimes(g, o, alloc, dealloc)
  {
    var n := |g.tensors|;
    alloc, dealloc := seq(n, _ => NOT_ASSIGNED), seq(n, _ => NOT_ASSIGNED);
    var refcounts := CountReferences(g, o);
    status, alloc := AllocateAll(alloc, dealloc, g.inputs, 0);
    status, alloc := AllocateAll(alloc, dealloc, g.variables, 0);
    status, alloc := AllocateAll(alloc, dealloc, g.inputs, 0);
    for i := 0 to |g.nodes|
      invariant status == Ok && |alloc| == |dealloc| == |refcounts| == n
      invariant forall t :: 0 <= t < n ==> alloc[t] == AllocUpTo(g, i, t)
      invariant forall t :: 0 <= t < n ==> dealloc[t] == DeallocUpTo(g, o, i, t)
      invariant !o.preserveIntermediates ==>
                  forall t :: 0 <= t < n ==> refcounts[t] == HeldReferences(g, o, t) + UsesFrom(g, i, t)
    {
      forall t ensures DeallocUpTo(g, o, i, t) != NOT_ASSIGNED ==> AllocUpTo(g, i, t) != NOT_ASSIGNED {
        NotYetReleased(g, o, i, t);
      }
      status, alloc := AllocateAll(alloc, dealloc, g.nodes[i].outputs, i);
      if !o.preserveIntermediates {
        status, dealloc, refcounts := ReleaseInputs(g, o, i, alloc, dealloc, refcounts);
      }
    }
    forall t ensures ComesAliveAt(g, t, AllocUpTo(g, |g.nodes|, t))
      ensures DiesAt(g, o, t, AllocUpTo(g, |g.nodes|, t), DeallocUpTo(g, o, |g.nodes|, t))
    {
      LifetimesAreExact(g, o, t);
    }
  }
}
