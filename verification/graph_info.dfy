/** What planners and partitioners ask of an inference graph. */
module GraphInfo {

  // Stands in a list of node inputs (or graph inputs) for an input that is not given.
  const OPTIONAL_TENSOR: int := -1

  /** Where a tensor's bytes come from. `Other` covers every kind the arenas do not serve
      (constants mapped from the model, dynamic and custom tensors). */
  datatype AllocationType = ArenaRw | ArenaRwPersistent | Other

  datatype Tensor = Tensor(bytes: nat, kind: AllocationType)

  datatype Node = Node(inputs: seq<int>, outputs: seq<int>, temporaries: seq<int>)

  /** The execution plan is `nodes`; the node at plan position `i` is known to the model as
      `nodeIndex[i]`, one of `totalNodes` indices. */
  datatype Graph = Graph(
    tensors: seq<Tensor>,
    nodes: seq<Node>,
    nodeIndex: seq<nat>,
    totalNodes: nat,
    inputs: seq<int>,
    outputs: seq<int>,
    variables: seq<int>)
  {
    predicate IsTensor(t: int) { 0 <= t < |tensors| }

    predicate Consumes(i: int, t: int)
      requires 0 <= i < |nodes|
    {
      t in nodes[i].inputs
    }

    predicate Produces(i: int, t: int)
      requires 0 <= i < |nodes|
    {
      t in nodes[i].outputs
    }

    /** Every index names a tensor, except that inputs may be left out. */
    ghost predicate InRange() {
      && (forall t :: t in inputs ==> MaybeTensor(t))
      && (forall t :: t in outputs ==> IsTensor(t))
      && (forall t :: t in variables ==> IsTensor(t))
      && (forall i :: 0 <= i < |nodes| ==> NodeInRange(nodes[i]))
    }

    predicate MaybeTensor(t: int) { t == OPTIONAL_TENSOR || IsTensor(t) }

    ghost predicate NodeInRange(n: Node) {
      && (forall t :: t in n.inputs ==> MaybeTensor(t))
      && (forall t :: t in n.outputs ==> IsTensor(t))
      && (forall t :: t in n.temporaries ==> IsTensor(t))
    }
  }
}
