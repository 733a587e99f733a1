# Verified models of TensorFlow runtime components

A Dafny model of six parts of TensorFlow whose correctness rests on bookkeeping that is hard to see through, with
proofs of what each of them promises.

* **The arena planner of TensorFlow Lite.** Reference counting gives every tensor a lifetime; tensors whose lifetimes
  do not meet share bytes of one buffer. The main theorem, `PlannerIsInvisible`, is semantic: with kernels as arbitrary
  functions that read their inputs and write their outputs, temporaries and variables, a run in the planned, shared
  memory gives every node the same inputs, and leaves the same outputs, as a run with a private buffer for every tensor.
  It covers planning spread over the run, as dynamic tensors need it: resets, guessed sizes, repeated executions,
  temporaries added to the tensor table meanwhile, buffers that grow and move between nodes, and runs on the plan that
  an earlier run has left. A placement of the planner goes to a shortest gap, or else as low as it may.
* **The graph partitioner of TensorFlow Lite delegates.** The nested fixpoint terminates, assigns every node of an
  acyclic plan, computes exact subset boundaries and a greedy partition, the only one that its rules allow, down to the
  order in which subsets list their nodes. Greedy needs at most one subset more than any ordered partition, and the
  bound is tight. Running subset by subset computes the same tensors as the original plan, whatever goes to the
  delegate, if and only if any two nodes that touch a common variable, one of them updating it, are linked by
  dependencies - but for the first node of the plan, which is always first.
* **Fixed-block parallel for and its blocking counter**, as transition systems over all interleavings, including
  spurious wakeups: safety, no lost wakeup, every run finite, each block called exactly once.
* **Patch packing for convolutions.** Every packet load gives the elements that loading them one by one would give,
  and `gemm_pack_rhs` writes the naive packing on its squeezed, row-by-row, standard and scalar paths: by coordinates,
  the pixels that a strided and padded convolution reads.
* **`CleanPath`**, rewritten in place by two pointers, against a stack of path parts. Two paths are cleaned to the same
  path exactly when they lead to the same places, and no shorter path does.
* **`TF_TString`** in its small, large and view shapes: any sequence of operations on any number of strings, assignment
  and move among them included, follows plain byte strings. **Integer parsing and printing** with exact overflow
  decisions.

Modules follow the source files. Code that updates state in place is a class or a method with loops and is proved equal
to a function of the old state or the inputs; what the source promises is proved about those functions. Modules of
reasoning only: `BestFit` (arena), `ArenaPlan`, `ArenaRuns`, `ArenaExecution`, `ArenaIncremental` (planner),
`Schedules`, `PartitionOrder`, `PartitionValues`, `UpdateOrder` (partitioner), `Convolution` (packing), `PathWalk`,
`PathPlaces` (paths), `TStringRuns` (strings), `Basics`, `Digits`, `Modular`, `Sums` (shared names and facts).

`dafny verify dfyconfig.toml` checks the project.

## Assumptions the theorems state

* Planner: node order is topological (`Topological`); a single producer per tensor that is no graph input implies that
  nothing is produced after its last consumer (`SingleProducerIsEnough`), and only that is needed. Temporaries belong to
  one node and are not otherwise used. Tensor indices are in range; only node inputs, and graph inputs and variables
  where the code checks for it, may be optional. Allocation types are fixed between plans.
* Planning during a run: a call right before node i places tensors of nodes from i on and resets to node i - 1 or
  later; when node i runs, everything that comes alive up to it has been placed with its final size. Tables only grow
  during a run, and what a call registers as temporaries is in its table.
* Partitioner: the plan can be ordered by dependencies; exact boundaries and equal values need one producer per tensor.
  Nodes may update graph variables, and the partitioner orders nothing by variables. Equal values for one partition
  need that any two nodes touching a common variable, one of them writing it, come in the same order in the plan and in
  the partition (`OrderedAlike`). For all partitions of a plan whose nodes use earlier nodes that comes down to the
  graph: such nodes, the first one excepted, must be linked by a chain of outputs and inputs (`ConflictsAreLinked`).
  Both conditions are necessary for kernels that remember what they have read and variables that are inputs of the
  nodes that update them, and there are plans that violate them (`UpdatesMayBeReordered`).
* Packing: when patches are standard, four columns can be transposed at this packet size and the patch depth is a
  multiple of it, the depth offset is one too. The source asserts the consequence in debug builds.

## Where code and comments differ

* The gap search announces a best fit; it compares the gap from the aligned offset on and stores the one from the
  unaligned offset on (`tensorflow/lite/simple_memory_arena.cc:64-67`). The model does what the code does. In plans of
  the planner that is a best fit all the same (`EveryPlacementFitsBest`), since all requests have one alignment. With
  mixed alignments it may not be: entries [0, 8), [128, 136) and [296, 304), and a request of 64 bytes aligned to 64,
  which goes to 192 although 64 fits exactly (`MixedAlignmentsMayNotFitBest`). On the plans whose entries start at
  multiples of `a`, the search is a best fit for requests of alignment `r` exactly when `r` divides `a` or is at most
  two (`BestFitIff`).
* `Allocate` accepts an alignment that is at most the arena's. Addresses are aligned for all buffers exactly when the
  one divides the other (`AddressesAlignedIff`); 48 in an arena of 64 passes the check and fails
  (`SmallerIsNotEnough`).

## Model

| member | source | states |
|---|---|---|
| MemoryArena.AlignTo | tensorflow/lite/simple_memory_arena.cc:25-29 | an aligned offset, not below the given one and less than one alignment above it |
| MemoryArena.AlignToIsLeast | tensorflow/lite/simple_memory_arena.cc:25-29 | no aligned offset from the given one on is smaller |
| MemoryArena.ChooseOffsetIsFree | tensorflow/lite/simple_memory_arena.cc:48-73 | the chosen range is aligned, shares no byte with an entry in use at a common node, and ends a bounded distance above the high-water mark |
| MemoryArena.GapIffThereIsOne | tensorflow/lite/simple_memory_arena.cc:53-73 | the search finds a gap if and only if an aligned free place exists below an entry in use; then the choice is such a place, and the plan grows only when there is none |
| MemoryArena.ChooseOffsetGoesThere | tensorflow/lite/simple_memory_arena.cc:48-73 | without a gap the offset is the lowest aligned one at or above the end of every entry in use at a common node |
| MemoryArena.AloneGoesFirst | tensorflow/lite/simple_memory_arena.cc:48-73 | a request that shares no node with any entry gets offset 0, whatever the arena holds |
| BestFit.SuitedPlansFitBest | tensorflow/lite/simple_memory_arena.cc:53-73 | in every plan whose entries start at multiples of the request's alignment, and for alignments up to two in every plan, a request that fits a gap goes to a shortest one, measured from its aligned place |
| BestFit.MixedAlignmentsMayNotFitBest | tensorflow/lite/simple_memory_arena.cc:64-67 | a plan with three entries and a request for which the search passes over an exact fit |
| BestFit.BestFitIff | tensorflow/lite/simple_memory_arena.cc:53-73 | requests of alignment r get a best fit in all sound plans at multiples of a if and only if r divides a or is at most two |
| MemoryArena.PlacementIsSound | tensorflow/lite/simple_memory_arena.cc:75-84 | inserting a free range in offset order keeps the plan sorted, below the mark, and disjoint for entries in use together |
| MemoryArena.FindOffset | tensorflow/lite/simple_memory_arena.cc:48-73 | the gap loop computes the offset that the lemmas above speak about: a gap if there is one, else the lowest aligned place above the entries in use at the request's nodes |
| MemoryArena.Inserted | tensorflow/lite/simple_memory_arena.cc:79-83 | the insertion loop puts the entry behind all smaller offsets and before all others |
| MemoryArena.Erased | tensorflow/lite/simple_memory_arena.cc:93-102 | the erasing loop removes exactly the tensor's entries, keeps the order of the others and counts what it removed |
| MemoryArena.RemoveTensorIsSound | tensorflow/lite/simple_memory_arena.cc:93-102 | erasing keeps a sound plan sound |
| MemoryArena.AddressesAlignedIff | tensorflow/lite/simple_memory_arena.cc:38-38 | tensors at aligned offsets have aligned addresses in every buffer if and only if the tensor alignment divides the arena alignment; comparing them is not enough |
| MemoryArena.SmallerIsNotEnough | tensorflow/lite/simple_memory_arena.cc:38-38 | alignment 48 in an arena of 64: accepted, and at an address that is not a multiple of 48 |
| MemoryArena.SimpleMemoryArena.Allocate | tensorflow/lite/simple_memory_arena.cc:34-85 | error exactly for a too large alignment, with nothing changed; zero size gets offset 0 and no entry; otherwise the range goes to a gap, or to the lowest aligned place above what is in use with it, sharing no byte with that, and record, plan and high-water mark follow |
| MemoryArena.SimpleMemoryArena.Deallocate | tensorflow/lite/simple_memory_arena.cc:87-105 | nothing for zero size; otherwise the tensor's entries go, and more than one is an error |
| MemoryArena.SimpleMemoryArena.Commit | tensorflow/lite/simple_memory_arena.cc:107-132 | afterwards the plan fits behind an aligned base; a large enough buffer stays where it is; the arena still provides every byte below the previously committed mark, whatever the two misalignments |
| MemoryArena.SimpleMemoryArena.ResolveAlloc | tensorflow/lite/simple_memory_arena.cc:134-147 | error if not committed or out of bounds; null for zero size; base plus offset otherwise |
| MemoryArena.SimpleMemoryArena.ClearPlan | tensorflow/lite/simple_memory_arena.cc:149-154 | empties the plan and keeps the buffer |
| MemoryArena.SimpleMemoryArena.ReleaseBuffer | tensorflow/lite/simple_memory_arena.cc:156-162 | drops the buffer and keeps plan and offsets |
| MemoryArena.SimpleMemoryArena.constructor | tensorflow/lite/simple_memory_arena.h:62-67 | an empty, uncommitted arena without a buffer |
| Lifetimes.LifetimesAreExact | tensorflow/lite/arena_planner.cc:78-190 | counting references gives alloc node 0 for inputs and variables and the first producer otherwise, and dealloc node the last consumer, unless the tensor is kept or comes alive only later |
| Lifetimes.AddReferences | tensorflow/lite/arena_planner.cc:112-120 | one reference per occurrence, optional entries skipped, duplicates counted |
| Lifetimes.AllocateAll | tensorflow/lite/arena_planner.cc:88-96 | gives the node to exactly the listed tensors without one, and never fails while no dealloc node precedes an alloc node |
| Lifetimes.ReleaseReferences | tensorflow/lite/arena_planner.cc:171-184 | taking back a node's input references, repeated inputs included, never fails and lets die exactly the allocated inputs without references left |
| Lifetimes.ReleaseInputs | tensorflow/lite/arena_planner.cc:171-184 | the same tied to the whole graph: dealloc nodes and counts advance from node i to node i + 1 |
| Lifetimes.PlanLifetimes | tensorflow/lite/arena_planner.cc:78-190 | the pass never fails and its lifetimes are exact |
| ArenaPlan.LiveTensorsAreDisjoint | tensorflow/lite/arena_planner.cc:303-335 | two recorded tensors of one arena whose inclusive node intervals meet never share a byte |
| ArenaPlan.OneEntryPerTensor | tensorflow/lite/arena_planner.cc:308-315 | a shared tensor has exactly one entry when its record is non-empty and none otherwise |
| ArenaPlan.BeforeIsStrictWeakOrder | tensorflow/lite/arena_planner.cc:264-289 | the sorting comparator is irreflexive, transitive and has a transitive incomparability, as the library's sort demands |
| ArenaPlan.PlacementIsLargestFirst | tensorflow/lite/arena_planner.cc:264-291 | whatever order the sort leaves puts whole-run tensors first and larger tensors before smaller ones |
| ArenaPlan.ExecuteKeepsInv | tensorflow/lite/arena_planner.cc:303-335 | dropping and placing a range keeps the invariant for every order the sort may leave |
| ArenaPlan.OutOfRangeStays | tensorflow/lite/arena_planner.cc:262-335 | executing nodes first to last never moves a tensor whose alloc node lies outside |
| ArenaPlan.PlaceAllRecords | tensorflow/lite/arena_planner.cc:317-333 | everything placed is recorded with its tensor's size and lifetime |
| ArenaPlan.ResetAfterRecords | tensorflow/lite/arena_planner.cc:63-76 | a reset forgets exactly the non-empty shared tensors that come alive after the node |
| ArenaPlan.ResetAfterKeepsInv | tensorflow/lite/arena_planner.cc:63-76 | and keeps the invariant |
| ArenaRuns.EveryRunIsSafe | tensorflow/lite/arena_planner.cc:63-335 | after any sequence of plan, execute, reset and memory calls: entries sorted, one entry per recorded shared tensor, aligned offsets, disjoint bytes for tensors in use together |
| ArenaRuns.EveryPlacementFitsBest | tensorflow/lite/arena_planner.cc:303-335 | after any sequence of planner calls, every placement of an execution goes to a shortest gap if there is one, and otherwise as low as the tensors that live with it allow, in either arena |
| ArenaPlanner.SortForPlacement | tensorflow/lite/arena_planner.cc:298-298 | a sort that leaves a permutation in comparator order |
| ArenaPlanner.ArenaPlanner.constructor | tensorflow/lite/arena_planner.cc:31-41 | two arenas of the default alignment without buffers, and the books of `ArenaRuns.NO_BOOKS`: no entries, records, lifetimes or pointers |
| ArenaPlanner.ArenaPlanner.ResetAllocations | tensorflow/lite/arena_planner.cc:55-61 | both plans and all records empty, buffers kept |
| ArenaPlanner.ArenaPlanner.PlanAllocations | tensorflow/lite/arena_planner.cc:78-190 | whatever was planned before, never fails and leaves exact lifetimes and empty plans; a planning step of `ArenaRuns` |
| ArenaPlanner.ArenaPlanner.ResetAllocationsAfter | tensorflow/lite/arena_planner.cc:63-76 | the new state is the reset of the old one, a reset step of `ArenaRuns`; the pointers of what was forgotten are null and no other pointer changes |
| ArenaPlanner.ArenaPlanner.CreateTensorAllocationVector | tensorflow/lite/arena_planner.cc:262-301 | each tensor with an alloc node in range once; tensors that live through the whole run first, by index, the others by non-increasing size and, for one size, by alloc node |
| ArenaPlanner.ArenaPlanner.CalculateAllocations | tensorflow/lite/arena_planner.cc:303-335 | drops, then places in that order; fails exactly when the alignment is too large and some arena tensor is to be placed |
| ArenaPlanner.ArenaPlanner.ResolveTensorAllocation | tensorflow/lite/arena_planner.cc:337-352 | an error if the arena is not committed or does not hold the range; otherwise sets the pointer to base plus offset, null for empty persistent tensors, and leaves empty shared and other tensors alone |
| ArenaPlanner.ArenaPlanner.Commit | tensorflow/lite/arena_planner.cc:256-260 | both arenas hold their plans at aligned bases and still provide the bytes below their old marks |
| ArenaPlanner.ArenaPlanner.ExecuteAllocations | tensorflow/lite/arena_planner.cc:192-224 | fewer tensors than records is an error that changes nothing; otherwise temporaries are registered, the range is dropped and placed in an order the sort may leave (an execution step of `ArenaRuns`), both arenas are committed keeping their bytes - a change of memory that may happen between two nodes of a run - and every arena tensor points at its offset from the aligned start of its buffer, all other pointers staying as they were |
| ArenaPlanner.ArenaPlanner.PointerIsGood | tensorflow/lite/arena_planner.cc:337-352 | when the tensor alignment divides the arenas', every recorded tensor's pointer is aligned and its bytes lie wholly inside its arena's buffer |
| ArenaPlanner.ArenaPlanner.PointersLieApart | tensorflow/lite/arena_planner.cc:337-352 | the bytes that two tensors of one arena in use together point at do not meet |
| ArenaPlanner.ArenaPlanner.ReleaseNonPersistentMemory | tensorflow/lite/arena_planner.cc:226-237 | no shared buffer, null pointers for exactly the shared tensors, the plan unchanged |
| ArenaPlanner.ArenaPlanner.AcquireNonPersistentMemory | tensorflow/lite/arena_planner.cc:239-250 | a new buffer in which every shared tensor points at its old offset, all other pointers staying as they were |
| ArenaPlanner.RegisterTemporaries | tensorflow/lite/arena_planner.cc:199-210 | every temporary lives at its own node only, the last one in range if several hold it |
| ArenaPlan.TemporariesLiveOnce | tensorflow/lite/arena_planner.cc:200-211 | a temporary lives exactly at the last node of the executed range that has it, for bounds read as unsigned; all other tensors keep their nodes |
| ArenaPlan.RecordsAreInside | tensorflow/lite/arena_planner.cc:337-352 | a recorded range ends below its arena's high-water mark and starts aligned |
| ArenaExecution.SingleProducerIsEnough | tensorflow/lite/arena_planner.cc:160-185 | single producers that are no graph inputs, and consumers after them, give the order the lifetimes need |
| ArenaExecution.AliveLieApart | tensorflow/lite/arena_planner.cc:192-224 | two tensors alive at a common node lie apart in that node's layout |
| ArenaExecution.CommitKeeps | tensorflow/lite/simple_memory_arena.cc:107-132 | when both arenas keep the bytes below their marks, memory changes only as it may between two nodes of a run, whatever lies outside the arenas |
| ArenaExecution.MoveKeepsContents | tensorflow/lite/arena_planner.cc:256-260 | such a change leaves the contents of every recorded tensor alone |
| ArenaExecution.StepsAgree | tensorflow/lite/arena_planner.cc:160-185 | within a kernel, what was there before and what its steps have written agree in shared and private memory |
| ArenaExecution.RunsAgree | tensorflow/lite/arena_planner.cc:78-224 | before every node, every tensor that still matters has the same contents in both runs, whatever buffers did between nodes |
| ArenaExecution.SharedMemoryIsInvisible | tensorflow/lite/arena_planner.cc:78-224 | over plans that serve the graph, and although between nodes buffers grow, move and change above their marks, every node reads the same inputs and every kept tensor ends with the same contents as with private buffers |
| ArenaIncremental.RoundKeepsPlanned | tensorflow/lite/arena_planner.cc:63-335 | any calls right before a node - executions of the nodes to come, on tables that may still grow, and resets - keep what is trusted placed with its final size, and move nothing that has come alive |
| ArenaIncremental.PlannedRunIsServed | tensorflow/lite/arena_planner.cc:192-224 | a run planned all at once or piece by piece, from any books that are planned as far as they are trusted, meets what the theorem on shared memory needs |
| ArenaIncremental.PlannerIsInvisible | tensorflow/lite/arena_planner.cc:63-335 | from any such books - fresh, prepared by earlier calls or left by an earlier run - planning, placing, resetting and re-placing as sizes and temporaries become known, with any last node, the run in shared memory equals the run with private buffers at every node's inputs and at every kept tensor |
| ArenaIncremental.FreshlyPlanned | tensorflow/lite/arena_planner.cc:78-190 | right after planning, on a tensor table that may still grow by temporaries, a run may start |
| ArenaIncremental.PreparedForRun | tensorflow/lite/arena_planner.cc:192-224 | executions of any ranges and resets before a run, repeated ones included, leave books that a run may start with |
| ArenaIncremental.RunMayRepeat | tensorflow/lite/arena_planner.cc:192-224 | a run leaves books that the next run on the same plan may start with, trusted at every node |
| ArenaIncremental.SizesMayChange | tensorflow/lite/arena_planner.cc:63-76 | when sizes change between runs, books stay trusted at the nodes whose tensors keep their sizes |
| GraphPartition.GraphPartitioner.constructor | tensorflow/lite/graph_info.cc:38-48 | exactly the listed original nodes are to be partitioned |
| GraphPartition.GraphPartitioner.InputsReady | tensorflow/lite/graph_info.cc:128-135 | true exactly when every given input is a constant, a graph input or produced by an assigned node |
| GraphPartition.GraphPartitioner.UpdateNode | tensorflow/lite/graph_info.cc:120-178 | a node joins exactly when it is unassigned, ready and of the subset's type or first in it; then the new state is the old one with the node joined |
| GraphPartition.RecordInputs | tensorflow/lite/graph_info.cc:155-173 | every input from another epoch becomes an input here and an output there |
| GraphPartition.GraphPartitioner.Pass | tensorflow/lite/graph_info.cc:185-192 | the nodes are visited in plan order and each joins when it may (`BetweenPasses`); a pass that did something assigned more nodes, one that did nothing proves that no node may join |
| GraphPartition.GraphPartitioner.BuildNodeSubset | tensorflow/lite/graph_info.cc:181-194 | terminates, leaves earlier subsets alone, lists the nodes pass by pass in plan order and ends when no node may join |
| GraphPartition.GraphPartitioner.BuildNodeSubsets | tensorflow/lite/graph_info.cc:68-77 | terminates with a greedy partition and no ready node left over |
| GraphPartition.MarkOutputs | tensorflow/lite/graph_info.cc:79-89 | every graph output with an epoch becomes an output of that subset, and nothing else changes |
| GraphPartition.Uniquefy | tensorflow/lite/graph_info.cc:93-101 | the same elements, sorted, without duplicates |
| GraphPartition.BoundaryIsExact | tensorflow/lite/graph_info.cc:79-102 | inputs are exactly the given tensors read but not produced in the subset, outputs exactly those produced there that another subset reads or the graph outputs; both sorted and duplicate-free |
| GraphPartition.GraphPartitioner.Partition | tensorflow/lite/graph_info.cc:51-103 | for a plan without cycles: an ordered partition of all nodes into subsets of one type, greedy, listed pass by pass in plan order - so in ascending order when nodes use earlier ones - with exact boundaries; indexing subsets by an output's epoch stays in bounds |
| PartitionOrder.SubsetsAscend | tensorflow/lite/graph_info.cc:181-194 | in a plan whose nodes use earlier nodes every subset keeps the order of the plan: one pass fills it |
| PartitionOrder.StartsWithFirst | tensorflow/lite/graph_info.cc:181-194 | such a plan is partitioned from its first node on |
| PartitionOrder.PartitionIsDetermined | tensorflow/lite/graph_info.cc:51-103 | two partitions of a plan that keep the rules - greedy, listed pass by pass - are equal, to the order in which nodes are listed |
| Schedules.StuckMeansDone | tensorflow/lite/graph_info.cc:71-77 | in a plan without cycles, when no unassigned node is ready all nodes are assigned |
| Schedules.PlanOrderIsSchedule | tensorflow/lite/graph_info.cc:71-77 | a plan whose nodes use only earlier nodes is a dependency order of itself, and so has no cycle |
| Schedules.GreedyAlternates | tensorflow/lite/graph_info.cc:137-147 | neighbouring subsets have different types |
| Schedules.GreedyKeepsUp | tensorflow/lite/graph_info.cc:71-77 | after its epoch for the other partition's subset j, greedy has assigned a superset of what the other has assigned up to j |
| Schedules.GreedyIsNearOptimal | tensorflow/lite/graph_info.cc:71-77 | at most one subset more than any ordered partition into single types, and no more than one that starts with the same type |
| Schedules.GreedyCanNeedOneMore | tensorflow/lite/graph_info.cc:137-142 | a three-node plan on which greedy needs one more, so the bound is tight |
| PartitionValues.SchedulesAgree | tensorflow/lite/graph_info.cc:51-103 | any two dependency orders of a plan that order updates of variables alike give every node the same inputs and every tensor the same value |
| PartitionValues.PartitionPreservesMeaning | tensorflow/lite/graph_info.cc:51-103 | running the subsets in order, nodes in listed order, gives every node the inputs and every tensor the value of the original plan, for nodes that update variables too if the subsets keep the order of those that touch a common one |
| PartitionValues.NoUpdatesPreserveMeaning | tensorflow/lite/graph_info.cc:51-103 | when no node updates a variable, every partition computes what the plan computes |
| PartitionValues.SameRunsIffOrderedAlike | tensorflow/lite/graph_info.cc:51-103 | for kernels that remember what they have read, two dependency orders run the same if and only if they order updates of variables alike |
| PartitionValues.PartitionPreservesMeaningIff | tensorflow/lite/graph_info.cc:51-103 | the same of a partition and the original plan |
| PartitionValues.UpdatesMayBeReordered | tensorflow/lite/graph_info.cc:120-178 | there is a plan of three nodes that read a variable, the first and the third updating it, and a delegate for these two, so that the second reads the variable after two updates instead of one |
| UpdateOrder.LinkedPrecedes | tensorflow/lite/graph_info.cc:120-135 | every dependency order keeps nodes that a chain of outputs and inputs links |
| UpdateOrder.UpdatesKeepOrderIff | tensorflow/lite/graph_info.cc:51-103 | all partitions of all choices for the delegate keep the order of conflicting updates if and only if conflicting nodes, the first one excepted, are linked |
| UpdateOrder.LinkedUpdatesPreserveMeaning | tensorflow/lite/graph_info.cc:51-103 | then running the subsets in order computes what the plan computes, for all kernels and whatever goes to the delegate |
| UpdateOrder.PartitioningPreservesMeaningIff | tensorflow/lite/graph_info.cc:51-103 | for kernels that remember, partitioning preserves meaning for all choices for the delegate if and only if conflicting nodes are linked, a condition on the graph alone |
| UpdateOrder.UnlinkedUpdatesChangeMeaning | tensorflow/lite/graph_info.cc:51-103 | otherwise, delegating the later of two unlinked nodes, what it needs and the first node changes what kernels that remember compute, whatever partition is made of it |
| UpdateOrder.DelegationIsGreedy | tensorflow/lite/graph_info.cc:51-103 | and there is a partition of that choice |
| UpdateOrder.ReorderedOnlyAcross | tensorflow/lite/graph_info.cc:51-103 | a partition keeps the order of conflicting updates if and only if no subset with the later node comes before one with the earlier: within a subset nothing is reordered |
| UpdateOrder.OneTypeKeepsThePlan | tensorflow/lite/graph_info.cc:51-103 | when all nodes go to the delegate, or none, the one subset is the plan as it stands, and all kernels compute what they would |
| BlockingCounter.StepKeepsInv | tensorflow/core/platform/blocking_counter.h:36-55 | every atomic action of every thread keeps the word equal to twice the remaining decrements plus the waiter bit, one last decrementer, and waiters that somebody will still wake |
| CounterRuns.WaitIsSafe | tensorflow/core/platform/blocking_counter.h:36-55 | in every interleaving Wait returns only after all decrements, the flag is set at most once, and after the last return no thread touches the counter |
| CounterRuns.WordStaysInRange | tensorflow/core/platform/blocking_counter.h:28-32 | the word stays between zero and twice the initial count plus one, so it fits whenever the shifted count does |
| CounterRuns.NobodyLeftAsleep | tensorflow/core/platform/blocking_counter.h:36-55 | when all decrementing threads are through, no waiter sleeps |
| CounterRuns.EveryRunEndsThrough | tensorflow/core/platform/blocking_counter.h:36-55 | every run is finite, and one that cannot go on has brought every thread through |
| ParallelFor.OneShardExactly | tensorflow/core/platform/threadpool.cc:121-128 | one shard exactly for a non-positive block, at most one element, at most one block or one thread |
| ParallelFor.MidSplits | tensorflow/core/platform/threadpool.cc:180-186 | the splitting point lies strictly inside, on the first block boundary from the midpoint on |
| ParallelFor.SplitterFits | tensorflow/core/platform/threadpool.cc:180-186 | when total plus block size less one fits 64 bits, every value of the splitter does |
| ParallelFor.BlocksAt | tensorflow/core/platform/threadpool.cc:121-128 | the blocks of a range are the intervals from k times b to the smaller of the next multiple and the end, and there are as many as shards |
| ParallelFor.HandleRange | tensorflow/core/platform/threadpool.cc:178-190 | a task keeps the first block and schedules the right half of what is left, again and again; the pieces make up its range |
| ParallelFor.StepKeepsInv | tensorflow/core/platform/threadpool.cc:166-201 | every step of every task keeps the called and the pending blocks together equal to the blocks of the range |
| ParallelFor.CounterCountsBlocks | tensorflow/core/platform/threadpool.cc:177-190 | the counter equals the blocks still to come plus the calls not yet counted |
| ParallelFor.ParallelForIsSafe | tensorflow/core/platform/threadpool.cc:166-201 | in every interleaving only blocks are called, none twice, and when the caller returns all have been called, no task is left and nobody touches the counter |
| ParallelFor.AtMostThreadsWork | tensorflow/core/platform/threadpool.cc:191-199 | the caller works itself exactly when there are no more blocks than threads in the pool, and there are never more tasks than blocks: work never runs on more than that many threads |
| ParallelFor.ParallelForCompletes | tensorflow/core/platform/threadpool.cc:166-201 | every run is finite and ends with the caller returned and each block called exactly once |
| SpatialPatches.StandardIsCoeff | tensorflow/core/kernels/eigen_spatial_convolutions-inl.h:321-341 | without strides and inflation the short form gives the same coefficient |
| SpatialPatches.BaseIndicesFit | tensorflow/core/kernels/eigen_spatial_convolutions-inl.h:612-626 | every patch of every image has a base whose image lies inside the input |
| Convolution.BaseOfPatch | tensorflow/core/kernels/eigen_spatial_convolutions-inl.h:612-626 | the patch of output row and column of an image starts at row times row stride minus top padding and column times column stride minus left padding |
| Convolution.PatchMatrix | tensorflow/core/kernels/eigen_spatial_convolutions-inl.h:289-317 | the coefficient for an output and a kernel element, by coordinates, is the pixel that a strided, padded, inflated convolution reads, in the layout of the input, and zero where there is none |
| SpatialPatches.CoeffInColumn | tensorflow/core/kernels/eigen_spatial_convolutions-inl.h:289-341 | a standard coefficient is zero in the padding and otherwise lies at a distance that is constant over a patch column, inside the patch's own image |
| SpatialPackets.UnpaddedStretch | tensorflow/core/kernels/eigen_spatial_convolutions-inl.h:461-472 | an unpadded stretch of one column is one contiguous read inside the patch's own image |
| SpatialPackets.PacketWithPossibleZero | tensorflow/core/kernels/eigen_spatial_convolutions-inl.h:600-610 | each lane i is the coefficient at the position plus i |
| SpatialPackets.LoadPacketFast | tensorflow/core/kernels/eigen_spatial_convolutions-inl.h:570-598 | the same for a packet that stays in its row |
| SpatialPackets.AlignedPacketStaysInRow | tensorflow/core/kernels/eigen_spatial_convolutions-inl.h:578-582 | when the packet size divides depth and position, the packet stays in its row |
| SpatialPackets.LoadPartialPacketStandard | tensorflow/core/kernels/eigen_spatial_convolutions-inl.h:368-407 | the lanes of one column are its coefficients and all others zero, by zeros, masked load or slow path |
| SpatialPackets.LoadPacketStandardFromTwoColumns | tensorflow/core/kernels/eigen_spatial_convolutions-inl.h:413-448 | two partial packets, put together bit by bit, are the lanes of a packet across a column boundary |
| SpatialPackets.LoadPacketStandardFromSingleColumn | tensorflow/core/kernels/eigen_spatial_convolutions-inl.h:449-474 | zeros, one contiguous read or element by element: the same lanes |
| SpatialPackets.LoadPacketStandard | tensorflow/core/kernels/eigen_spatial_convolutions-inl.h:484-568 | every lane i of a standard packet is the coefficient at the position plus i, with and without masked loads |
| SpatialPackets.LoadPacket | tensorflow/core/kernels/eigen_spatial_convolutions-inl.h:345-360 | the same for every patch, standard or not |
| GemmPack.StoreTransposed | tensorflow/core/kernels/eigen_spatial_convolutions-inl.h:1134-1145 | the stored kernel interleaves four packets, as four packets or as two pairs |
| GemmPack.MaxRowBounds | tensorflow/core/kernels/eigen_spatial_convolutions-inl.h:787-794 | the row limit is past the first row, its last row begins at or before the last position, and it is all rows or past that position |
| GemmPack.RunOfRows | tensorflow/core/kernels/eigen_spatial_convolutions-inl.h:899-951 | rows whose first and last are unpadded are one contiguous read from the base index; a padded row is zero |
| GemmPack.PackSqueezed | tensorflow/core/kernels/eigen_spatial_convolutions-inl.h:1106-1150 | the squeezed read fills exactly the positions of the column's rows that are left to fill |
| GemmPack.PackRowByRow | tensorflow/core/kernels/eigen_spatial_convolutions-inl.h:1152-1191 | the row-by-row loop fills the same positions with the same values |
| GemmPack.FastPath | tensorflow/core/kernels/eigen_spatial_convolutions-inl.h:1091-1195 | the column, row and depth loops fill exactly the peeled positions |
| GemmPack.StandardPath | tensorflow/core/kernels/eigen_spatial_convolutions-inl.h:1197-1211 | packets that may leave their row fill the same positions |
| GemmPack.PackRemainder | tensorflow/core/kernels/eigen_spatial_convolutions-inl.h:1214-1231 | the scalar loops fill the rest |
| GemmPack.PackFour | tensorflow/core/kernels/eigen_spatial_convolutions-inl.h:1080-1232 | four columns on every path: interleaved coefficients from the depth offset on, nothing else written |
| GemmPack.NaivePackingElement | tensorflow/core/kernels/eigen_spatial_convolutions-inl.h:1009-1036 | row k of column j of the naive packing is at its place in the traversal order |
| GemmPack.GemmPackRhs | tensorflow/core/kernels/eigen_spatial_convolutions-inl.h:1069-1242 | for every padding, stride and packet size the block is the naive packing and nothing beyond it is written; by coordinates, it holds for every output and kernel element the pixel that the convolution reads, at a stated place |
| GemmPack.PackColumn | tensorflow/core/kernels/eigen_spatial_convolutions-inl.h:1303-1405 | with packets of two, squeezing also asks for a row stride of one; either way the column's positions are filled |
| GemmPack.PackSingles | tensorflow/core/kernels/eigen_spatial_convolutions-inl.h:1234-1241 | the leftover columns follow, one at a time |
| CleanPath.CleanPath | tensorflow/core/platform/path.cc:149-228 | for every string without terminators the in-place loop gives the result of resolving its parts on a stack, and the result leads from every directory to where the string leads, read character by character |
| CleanPath.TakePart | tensorflow/core/platform/path.cc:162-207 | one turn keeps: the writing pointer not past the reading one, the rest unread, and stack and rest resolving to the same path |
| CleanPath.Backtrack | tensorflow/core/platform/path.cc:176-180 | moves back to the limit or to just behind the nearest separator |
| CleanPath.BacktrackPops | tensorflow/core/platform/path.cc:176-180 | which takes back exactly the last part |
| CleanPath.Classify | tensorflow/core/platform/path.cc:166-173 | the first three characters tell ".", ".." and named parts apart exactly |
| CleanPath.Trim | tensorflow/core/platform/path.cc:215-227 | no separator at the end except for the root, "." for nothing |
| CleanPath.CleanIsIdempotent | tensorflow/core/platform/path.cc:149-228 | cleaning a clean path changes nothing |
| CleanPath.CleanLeadsThere | tensorflow/core/platform/path.cc:149-228 | walking the clean path ends where walking the path ends, from every directory |
| PathPlaces.SameCleanIff | tensorflow/core/platform/path.cc:149-228 | two paths have the same clean path if and only if they lead to the same place from every directory |
| PathPlaces.CleanIsShortest | tensorflow/core/platform/path.cc:149-228 | no non-empty path that leads to the same places is shorter |
| CleanPath.CleanHasNoNul | tensorflow/core/platform/path.cc:149-228 | a clean path is free of terminators when the path is, so that it may be cleaned again |
| CleanPath.CleanTwice | tensorflow/core/platform/path.cc:149-228 | two runs of the in-place loop give what one gives |
| TString.NewCapacity | tensorflow/core/platform/ctstring_internal.h:253-268 | a new capacity holds the size, is 15 modulo 16, stays below the largest `size_t` for every size that can be stored, and never mistakes an inline or view capacity for a heap buffer; it at least doubles when it grows, by no more than the size and the rounding ask for, is halved when less than half stays in use, and is kept otherwise |
| TString.TString.ResizeUninitialized | tensorflow/core/platform/ctstring_internal.h:227-288 | from every shape: the new size, the common prefix kept, owned and terminated, large exactly above the inline capacity and then with the capacity of the policy, in the same buffer if that is unchanged |
| TString.TString.GetMutableDataPointer | tensorflow/core/platform/ctstring_internal.h:290-306 | the same bytes, owned |
| TString.TString.Reserve | tensorflow/core/platform/ctstring_internal.h:308-347 | nothing changes if there is room or inline room is enough; otherwise the same bytes in a large buffer of the aligned capacity |
| TString.TString.Resize | tensorflow/core/platform/ctstring_internal.h:349-359 | cut, or padded with the given byte |
| TString.TString.AssignView | tensorflow/core/platform/ctstring_internal.h:361-367 | a view of the given bytes, which stay as they are and are not the string's own buffer, since that is freed first |
| TString.TString.AppendN | tensorflow/core/platform/ctstring_internal.h:369-378 | concatenation of bytes from elsewhere; appending nothing changes nothing |
| TString.TString.AppendWithin | tensorflow/core/platform/ctstring_internal.h:369-378 | appending a part of the string itself is concatenation, as long as resizing leaves those bytes in place: viewed bytes, an inline string that stays inline, a large one that keeps its buffer |
| TString.TString.Append | tensorflow/core/platform/ctstring_internal.h:380-385 | concatenation with another string, which stays as it is, or under the same condition with itself |
| TString.TString.Copy | tensorflow/core/platform/ctstring_internal.h:387-392 | exactly the given bytes, owned |
| TString.TString.CopyWithin | tensorflow/core/platform/ctstring_internal.h:387-392 | copying a part of the string to its front gives that part if the bytes are viewed or lie behind the new end; where they begin at the new end the first one has been overwritten by the terminator |
| TString.TString.Assign | tensorflow/core/platform/ctstring_internal.h:394-421 | the source's bytes, the source unchanged; heap bytes are copied to a new buffer, views are shared |
| TString.TString.Move | tensorflow/core/platform/ctstring_internal.h:423-447 | the source's bytes; a heap buffer changes hands and leaves the source empty |
| TString.TString.Dealloc | tensorflow/core/platform/ctstring_internal.h:175-181 | a large string becomes empty and small, others stay |
| TStringRuns.PerformFirst | tensorflow/core/platform/ctstring_internal.h:175-447 | any sequence of resizes, reservations, conversions, views, appends, copies, frees, assignments, moves and concatenations of storable sizes on any number of strings leaves each with the bytes and in the kind of place that the same operations give plain byte strings, sources emptied by a move included; no heap buffer has two owners or is viewed |
| Numbers.ParseIsExact | tensorflow/core/platform/numbers.cc:231-341 | accepted are exactly the spellings, spaces around an optional minus and digits, of numbers in range, as those numbers |
| Numbers.SpaceTable | tensorflow/core/platform/numbers.cc:221-230 | the six characters that count as space around a number |
| Numbers.OverflowTests | tensorflow/core/platform/numbers.cc:244-263 | the tests before a digit is taken, with truncating division, are exact at both limits |
| Numbers.SafeStrto64 | tensorflow/core/platform/numbers.cc:231-270 | parses as specified between the 64-bit limits, the asymmetric minimum included |
| Numbers.SafeStrtou64 | tensorflow/core/platform/numbers.cc:272-291 | the same, unsigned |
| Numbers.SafeStrto32 | tensorflow/core/platform/numbers.cc:293-321 | the same between the 32-bit limits |
| Numbers.SafeStrtou32 | tensorflow/core/platform/numbers.cc:323-341 | the same, unsigned |
| Numbers.FastUIntToBufferLeft | tensorflow/core/platform/numbers.cc:169-178 | decimal digits in order, a terminator behind them, their number returned, nothing before touched |
| Numbers.FastIntToBufferLeft | tensorflow/core/platform/numbers.cc:157-167 | a minus sign and the magnitude, the minimum included |
| Numbers.ParseInvertsPrint | tensorflow/core/platform/numbers.cc:131-341 | parsing a printed number gives the number |
| Numbers.PrintedIsShortest | tensorflow/core/platform/numbers.cc:131-193 | no spelling of a number is shorter than the printed one |
| Digits.DigitTable | tensorflow/core/platform/numbers.cc:131-193 | the ten digits, what they stand for and how they are printed |
| Numbers.Uint64ToHexString | tensorflow/core/platform/numbers.cc:419-428 | sixteen lower-case digits of the value and a terminator |
| Numbers.HexStringToUint64 | tensorflow/core/platform/numbers.cc:430-449 | accepts exactly non-empty hexadecimal strings, as their value modulo two to the 64 |
| Numbers.HexRoundTrip | tensorflow/core/platform/numbers.cc:419-449 | the parser gives back what the printer was given |
| Numbers.HexTables | tensorflow/core/platform/numbers.cc:419-449 | hexadecimal digits are printed from the lower-case table and read in both cases, each for its index |
| StrUtil.WraparoundTest | tensorflow/core/platform/str_util.cc:70-74 | an eighth of the wrapped sum is below the old value if and only if the sum overflowed |
| StrUtil.ConsumeLeadingDigits | tensorflow/core/platform/str_util.cc:63-86 | takes the longest digit prefix with its exact value if there is one and it fits; otherwise leaves the input alone |

## Left out

- Integers are unbounded. `size_t` wrap-around in the arenas is excluded by stated room below its largest value; `int`
  node counts stay below the "not assigned" value. `SplitterFits` and `WordStaysInRange` say what the parallel for
  needs so that nothing overflows; that the shard count fits an `int` is taken for granted.
- The graph is a value given to each planner call, since node preparation changes it between calls; data pointers live
  in the planner's map instead of in the tensors.
- ArenaIncremental.PlannerIsInvisible: planning lifetimes anew in the middle of a run, and releasing the shared buffer
  there, are not calls of a run; both are covered between runs, by `FreshlyPlanned` and by the planner's methods.
- BestFit.BestFitIff: for alignments whose product is below an eighth of the largest `size_t`, so that the plans that
  defeat the search fit.
- ArenaPlan.OneEntryPerTensor: says nothing about the persistent arena, where placing a tensor again adds an entry.
- The library's `sort`, `unique` and `reverse` are stand-in loops with the same contract; `std::sort` may leave any
  order that the comparator allows, and the theorems hold for all of them.
- Heap addresses are parameters, `malloc` does not fail, and fresh memory may hold any bytes.
- Kernels of nodes are arbitrary functions; their numerics, custom allocations, delegates and the interpreter around
  the planner are not part of this model.
- Memory order and the thread pool's own queues: atomic actions are sequentially consistent steps, and a scheduled task
  is one that may begin at any time. Adaptive `ParallelFor` and `WaitFor` depend on cost models and clocks.
- GemmPack.GemmPackRhs: one method stands for the template and its specializations for packets of two and one, which
  differ in how a kernel is transposed and in when the fast path and squeezing apply. `ptranspose`, masked loads and
  lane-wise "or" are given by what they do to lanes; scalars are opaque, zero being the one with no bit set.
- TString.TString.AppendN: source bytes are a value; a source inside the string is `AppendWithin`, as long as resizing
  leaves the bytes in place. Beyond that the code reads freed or overwritten memory, which has no defined value.
- TString.TString.Copy: source bytes are a value; a source inside the string is `CopyWithin`, unless `memcpy` would
  overlap or the bytes are freed, which has no defined value.
- TStringRuns.PerformFirst: views are of bytes outside all the strings, and a large string is not appended to itself.
- The string's size encoding (sizes are below two to the 62, as the encoding has it), overlapping union bytes and the
  offset shape.
- `StringPiece` is a sequence of characters; C locale `isspace` and `isdigit`.
- `ArgDefCase`, floating point, `FpToString`, file systems, Windows paths and URIs: easier members or platform code.
