/** The fixed-block parallel for: ranges are split recursively, the pieces run as tasks in any
    order, and a blocking counter tells the caller when all of them are done. */
module ParallelFor {
  import opened Basics
  import opened Modular
  import opened Sums
  import BC = BlockingCounter
  import CounterRuns

  type Range = (int, int)

  // ----- Arithmetic of the splitter ------------------------------------------------------------

  /** The number of shards; all operands of the division are positive, so it truncates like `/`. */
  function NumShards(total: int, block: int, threads: int): int {
    if block <= 0 || total <= 1 || total <= block || threads == 1 then 1
    else (total + block - 1) / block
  }

  /** Something near the midpoint that is a multiple of the block size away from `first`. */
  function Mid(first: int, last: int, block: int): int
    requires block > 0
  {
    first + ((last - first) / 2 + block - 1) / block * block
  }

  /** The splitting point lies strictly inside, on the first block boundary from the midpoint on. */
  lemma MidSplits(first: int, last: int, block: int)
    requires block > 0 && last - first > block
    ensures first < Mid(first, last, block) < last
    ensures 0 <= Mid(first, last, block) - (first + (last - first) / 2) < block
    ensures (Mid(first, last, block) - first) % block == 0
  {
    var half := (last - first) / 2;
    var q := (half + block - 1) / block;
    var r := (half + block - 1) % block;
    assert half + block - 1 == q * block + r;
    MultipleMod(q, block);
    QuotientPositive(half + block - 1, block);
    if half < block {
      assert q == 1 by { DivModUnique(half + block - 1, block, 1, half - 1); }
    }
  }

  /** If the sum in the number of shards fits, every value the splitter computes does. */
  lemma SplitterFits(total: int, block: int, first: int, last: int)
    requires block > 0 && total + block - 1 <= INT64_MAX && 0 <= first && last <= total && last - first > block
    ensures var x := (last - first) / 2 + block - 1;
            0 < x <= INT64_MAX && 0 < x / block * block <= INT64_MAX && first + x / block * block <= INT64_MAX
  {
    MidSplits(first, last, block);
  }

  /** The blocks of a range: full ones, and a last one that may be shorter. */
  function Blocks(first: int, last: int, block: int): (r: seq<Range>)
    requires block > 0
    ensures |r| >= 1
    decreases last - first
  {
    if last - first <= block then [(first, last)]
    else [(first, first + block)] + Blocks(first + block, last, block)
  }

  /** Splitting on a block boundary splits the blocks. */
  lemma {:induction false} BlocksSplit(first: int, mid: int, last: int, block: int)
    requires block > 0 && first < mid < last && (mid - first) % block == 0
    ensures Blocks(first, last, block) == Blocks(first, mid, block) + Blocks(mid, last, block)
    decreases mid - first
  {
    var q := (mid - first) / block;
    assert mid - first == q * block;
    MulSign(q, block);
    assert q * block == block + (q - 1) * block;
    if q > 1 {
      assert (q - 1) * block > 0 by { MulAtLeast(q - 1, block); }
      MultipleMod(q - 1, block);
      BlocksSplit(first + block, mid, last, block);
    }
  }

  lemma {:induction false} BlocksCount(first: int, last: int, block: int)
    requires block > 0 && first < last
    ensures |Blocks(first, last, block)| == (last - first + block - 1) / block
    decreases last - first
  {
    var n := last - first + block - 1;
    if last - first <= block {
      DivModUnique(n, block, 1, last - first - 1);
    } else {
      BlocksCount(first + block, last, block);
      var q, r := (n - block) / block, (n - block) % block;
      assert n == q * block + r + block == (q + 1) * block + r;
      DivModUnique(n, block, q + 1, r);
    }
  }

  /** Block `k` of `[0, total)` is `[k*b, min((k+1)*b, total))`. */
  lemma {:induction false} BlockIs(first: int, last: int, block: int, k: nat)
    requires block > 0 && first < last && k < |Blocks(first, last, block)|
    ensures Blocks(first, last, block)[k] == BlockAt(first, last, block, k)
    decreases last - first
  {
    if k > 0 {
      BlockIs(first + block, last, block, k - 1);
      assert (k - 1) * block + block == k * block && k * block + block == (k + 1) * block;
    }
  }

  /** The blocks are those intervals, and there are as many as shards. */
  lemma BlocksAt(first: int, last: int, block: int)
    requires block > 0 && first < last
    ensures |Blocks(first, last, block)| == (last - first + block - 1) / block
    ensures forall k :: 0 <= k < |Blocks(first, last, block)| ==>
        Blocks(first, last, block)[k] == BlockAt(first, last, block, k)
  {
    BlocksCount(first, last, block);
    forall k | 0 <= k < |Blocks(first, last, block)|
      ensures Blocks(first, last, block)[k] == BlockAt(first, last, block, k)
    {
      BlockIs(first, last, block, k);
    }
  }

  function BlockAt(first: int, last: int, block: int, k: int): Range {
    var end := first + (k + 1) * block;
    (first + k * block, if end < last then end else last)
  }

  // ----- The system -------------------------------------------------------------------------------

  /** A task that is scheduled, one that runs its splitting loop, or one whose function has been
      called and that decrements the counter as decrementing thread `dec`. */
  datatype Task = Pending(first: int, last: int) | Running(first: int, last: int) | Called(dec: nat)

  /** `calls` are the calls of the function so far. The caller waits as the counter's only waiter;
      when `callerRuns`, it runs the root task itself first. */
  datatype Pool = Pool(
    total: int,
    block: int,
    callerRuns: bool,
    tasks: seq<Task>,
    calls: seq<Range>,
    counter: BC.Counter)

  datatype Step = Begin(t: nat) | Split(t: nat) | Call(t: nat) | Count(s: BC.Step)

  function Start(total: int, block: int, threads: int, spurious: nat): Pool
    requires NumShards(total, block, threads) > 1
  {
    var shards := NumShards(total, block, threads);
    var callerRuns := shards <= threads;
    Pool(total, block, callerRuns, [if callerRuns then Running(0, total) else Pending(0, total)], [],
         BC.Initial(shards, 1, spurious))
  }

  /** Has the caller finished its own share of the work? */
  predicate CallerMayWait(p: Pool) {
    !p.callerRuns ||
    (|p.tasks| > 0 && p.tasks[0].Called? && p.tasks[0].dec < |p.counter.decs| && p.counter.decs[p.tasks[0].dec].Out?)
  }

  predicate Enabled(p: Pool, s: Step) {
    p.block > 0 &&
    match s
    case Begin(t) => t < |p.tasks| && p.tasks[t].Pending?
    case Split(t) => t < |p.tasks| && p.tasks[t].Running? && p.tasks[t].last - p.tasks[t].first > p.block
    case Call(t) => t < |p.tasks| && p.tasks[t].Running? && p.tasks[t].last - p.tasks[t].first <= p.block
    case Count(s) =>
      && BC.Enabled(p.counter, s)
      && (s.FetchSub? ==> s.d < |p.calls|)
      && (s.FetchOr? ==> CallerMayWait(p))
  }

  function Apply(p: Pool, s: Step): Pool
    requires Enabled(p, s)
  {
    match s
    case Begin(t) => p.(tasks := p.tasks[t := Running(p.tasks[t].first, p.tasks[t].last)])
    case Split(t) =>
      var first, last := p.tasks[t].first, p.tasks[t].last;
      var mid := Mid(first, last, p.block);
      p.(tasks := p.tasks[t := Running(first, mid)] + [Pending(mid, last)])
    case Call(t) =>
      p.(tasks := p.tasks[t := Called(|p.calls|)], calls := p.calls + [(p.tasks[t].first, p.tasks[t].last)])
    case Count(s) => p.(counter := BC.Apply(p.counter, s))
  }

  // ----- The invariant ------------------------------------------------------------------------------

  function TaskBlocks(t: Task, block: int): seq<Range>
    requires block > 0
  {
    if t.Called? then [] else Blocks(t.first, t.last, block)
  }

  /** How often `x` is among the blocks of a task whose function call is still to come. */
  function CountOf(block: int, x: Range): Task -> nat
    requires block > 0
  {
    (t: Task) => multiset(TaskBlocks(t, block))[x]
  }

  /** The number of those blocks. */
  function SizeOf(block: int): Task -> nat
    requires block > 0
  {
    (t: Task) => |TaskBlocks(t, block)|
  }

  function ToCome(tasks: seq<Task>, block: int, x: Range): nat
    requires block > 0
  {
    Total(tasks, CountOf(block, x))
  }

  function BlocksToCome(tasks: seq<Task>, block: int): nat
    requires block > 0
  {
    Total(tasks, SizeOf(block))
  }

  ghost predicate TaskFits(p: Pool, t: int)
    requires 0 <= t < |p.tasks| && p.block > 0
  {
    match p.tasks[t]
    case Called(dec) => dec < |p.calls|
    case _ => 0 <= p.tasks[t].first < p.tasks[t].last <= p.total && p.tasks[t].first % p.block == 0
  }

  ghost predicate Balanced(p: Pool, x: Range)
    requires p.block > 0
  {
    multiset(p.calls)[x] + ToCome(p.tasks, p.block, x) == multiset(Blocks(0, p.total, p.block))[x]
  }

  /** Called blocks and blocks still to come are exactly the blocks of the whole range, and nobody
      decrements the counter before a call. */
  ghost predicate Inv(p: Pool) {
    && 0 < p.block < p.total
    && BC.Inv(p.counter) && |p.counter.waiters| == 1 && |p.tasks| > 0
    && |p.counter.decs| == |Blocks(0, p.total, p.block)|
    && (forall t :: 0 <= t < |p.tasks| ==> TaskFits(p, t))
    && (forall x :: Balanced(p, x))
    && |p.calls| + BlocksToCome(p.tasks, p.block) == |Blocks(0, p.total, p.block)|
    && (forall d :: |p.calls| <= d < |p.counter.decs| ==> p.counter.decs[d] == BC.BeforeSub)
  }

  /** The counter's count is the number of blocks of unfinished ranges, a called block counting
      until its decrement. */
  lemma CounterCountsBlocks(p: Pool)
    requires Inv(p)
    ensures |p.calls| <= |p.counter.decs|
    ensures p.counter.state / 2 == BlocksToCome(p.tasks, p.block) + BC.Remaining(p.counter.decs[..|p.calls|])
  {
    RestRemains(p.counter.decs, |p.calls|);
  }

  lemma {:induction false} RestRemains(decs: seq<BC.DecPc>, n: nat)
    requires n <= |decs| && forall d :: n <= d < |decs| ==> decs[d] == BC.BeforeSub
    ensures BC.Remaining(decs) == BC.Remaining(decs[..n]) + |decs| - n
    decreases |decs|
  {
    if |decs| > n {
      RestRemains(decs[..|decs| - 1], n);
      assert decs[..|decs| - 1][..n] == decs[..n] && decs == decs[..|decs| - 1] + [BC.BeforeSub];
      TotalAppend(decs[..|decs| - 1], BC.BeforeSub, BC.ToDecrement());
    } else {
      assert decs[..n] == decs;
    }
  }

  lemma OneTask(t: Task, block: int, x: Range)
    requires block > 0
    ensures ToCome([t], block, x) == multiset(TaskBlocks(t, block))[x]
        && BlocksToCome([t], block) == |TaskBlocks(t, block)|
  {
    assert [] + [t] == [t];
    TotalAppend([], t, CountOf(block, x));
    TotalAppend([], t, SizeOf(block));
  }

  lemma StartInv(total: int, block: int, threads: int, spurious: nat)
    requires NumShards(total, block, threads) > 1
    ensures Inv(Start(total, block, threads, spurious))
  {
    var p := Start(total, block, threads, spurious);
    BC.InitialInv(|p.counter.decs|, 1, spurious);
    BlocksCount(0, total, block);
    forall x ensures Balanced(p, x) {
      OneTask(p.tasks[0], block, x);
    }
    OneTask(p.tasks[0], block, (0, 0));
  }

  /** Replacing a task changes what is to come by what the two tasks have to call. */
  lemma TaskReplaced(tasks: seq<Task>, t: nat, task: Task, block: int, x: Range)
    requires block > 0 && t < |tasks|
    ensures ToCome(tasks[t := task], block, x) + multiset(TaskBlocks(tasks[t], block))[x]
         == ToCome(tasks, block, x) + multiset(TaskBlocks(task, block))[x]
    ensures BlocksToCome(tasks[t := task], block) + |TaskBlocks(tasks[t], block)|
         == BlocksToCome(tasks, block) + |TaskBlocks(task, block)|
  {
    TotalAfter(tasks, t, task, CountOf(block, x));
    TotalAfter(tasks, t, task, SizeOf(block));
  }

  lemma BeginKeepsInv(p: Pool, t: nat)
    requires Inv(p) && Enabled(p, Begin(t))
    ensures Inv(Apply(p, Begin(t)))
  {
    var r := Apply(p, Begin(t));
    TaskReplaced(p.tasks, t, r.tasks[t], p.block, (0, 0));
    forall x ensures Balanced(r, x) {
      TaskReplaced(p.tasks, t, r.tasks[t], p.block, x);
      assert Balanced(p, x);
    }
    forall u | 0 <= u < |r.tasks| ensures TaskFits(r, u) {
      assert TaskFits(p, u) && TaskFits(p, t);
    }
  }

  /** What a split does to the blocks still to come: nothing. */
  lemma SplitBalances(tasks: seq<Task>, t: nat, mid: int, block: int, x: Range)
    requires block > 0 && t < |tasks| && tasks[t].Running?
    requires tasks[t].first < mid < tasks[t].last && (mid - tasks[t].first) % block == 0
    ensures var r := tasks[t := Running(tasks[t].first, mid)] + [Pending(mid, tasks[t].last)];
            ToCome(r, block, x) == ToCome(tasks, block, x) && BlocksToCome(r, block) == BlocksToCome(tasks, block)
  {
    var left, right := Running(tasks[t].first, mid), Pending(mid, tasks[t].last);
    BlocksSplit(tasks[t].first, mid, tasks[t].last, block);
    TotalAfter(tasks, t, left, CountOf(block, x));
    TotalAfter(tasks, t, left, SizeOf(block));
    TotalAppend(tasks[t := left], right, CountOf(block, x));
    TotalAppend(tasks[t := left], right, SizeOf(block));
    assert TaskBlocks(tasks[t], block) == TaskBlocks(left, block) + TaskBlocks(right, block);
  }

  lemma SplitKeepsBalance(p: Pool, t: nat)
    requires Enabled(p, Split(t)) && 0 <= p.tasks[t].first && forall x :: Balanced(p, x)
    ensures var r := Apply(p, Split(t));
            BlocksToCome(r.tasks, p.block) == BlocksToCome(p.tasks, p.block) && forall x :: Balanced(r, x)
  {
    var r := Apply(p, Split(t));
    SplitChangesNothing(p, t, (0, 0));
    forall x ensures Balanced(r, x) {
      SplitChangesNothing(p, t, x);
      assert Balanced(p, x);
    }
  }

  lemma SplitChangesNothing(p: Pool, t: nat, x: Range)
    requires Enabled(p, Split(t)) && 0 <= p.tasks[t].first
    ensures var r := Apply(p, Split(t));
            && ToCome(r.tasks, p.block, x) == ToCome(p.tasks, p.block, x)
            && BlocksToCome(r.tasks, p.block) == BlocksToCome(p.tasks, p.block)
  {
    MidSplits(p.tasks[t].first, p.tasks[t].last, p.block);
    SplitBalances(p.tasks, t, Mid(p.tasks[t].first, p.tasks[t].last, p.block), p.block, x);
  }

  lemma SplitKeepsTasks(p: Pool, t: nat)
    requires Inv(p) && Enabled(p, Split(t))
    ensures var r := Apply(p, Split(t)); forall u :: 0 <= u < |r.tasks| ==> TaskFits(r, u)
  {
    var r, n := Apply(p, Split(t)), |p.tasks|;
    var first, last := p.tasks[t].first, p.tasks[t].last;
    var mid := Mid(first, last, p.block);
    MidSplits(first, last, p.block);
    AddMultiple(first, mid - first, p.block);
    assert TaskFits(p, t);
    forall u | 0 <= u < |r.tasks| ensures TaskFits(r, u) {
      if u < n {
        assert TaskFits(p, u);
      }
    }
  }

  lemma SplitKeepsInv(p: Pool, t: nat)
    requires Inv(p) && Enabled(p, Split(t))
    ensures Inv(Apply(p, Split(t)))
  {
    assert TaskFits(p, t);
    SplitKeepsBalance(p, t);
    SplitKeepsTasks(p, t);
  }

  /** A call moves a block from those to come to those called. */
  lemma CallKeepsBalance(p: Pool, t: nat)
    requires Enabled(p, Call(t)) && p.tasks[t].first < p.tasks[t].last && forall x :: Balanced(p, x)
    ensures var r := Apply(p, Call(t));
            BlocksToCome(r.tasks, p.block) + 1 == BlocksToCome(p.tasks, p.block) && forall x :: Balanced(r, x)
  {
    var r := Apply(p, Call(t));
    assert TaskBlocks(p.tasks[t], p.block) == [(p.tasks[t].first, p.tasks[t].last)];
    TaskReplaced(p.tasks, t, r.tasks[t], p.block, (0, 0));
    forall x ensures Balanced(r, x) {
      TaskReplaced(p.tasks, t, r.tasks[t], p.block, x);
      assert Balanced(p, x);
    }
  }

  lemma CallKeepsInv(p: Pool, t: nat)
    requires Inv(p) && Enabled(p, Call(t))
    ensures Inv(Apply(p, Call(t)))
  {
    var r := Apply(p, Call(t));
    assert TaskFits(p, t);
    CallKeepsBalance(p, t);
    forall u | 0 <= u < |r.tasks| ensures TaskFits(r, u) {
      assert TaskFits(p, u);
    }
  }

  lemma CountKeepsInv(p: Pool, s: BC.Step)
    requires Inv(p) && Enabled(p, Count(s))
    ensures Inv(Apply(p, Count(s)))
  {
    BC.StepKeepsInv(p.counter, s);
    var r := Apply(p, Count(s));
    forall x ensures Balanced(r, x) {
      assert Balanced(p, x);
    }
    forall u | 0 <= u < |r.tasks| ensures TaskFits(r, u) {
      assert TaskFits(p, u);
    }
  }

  lemma StepKeepsInv(p: Pool, s: Step)
    requires Inv(p) && Enabled(p, s)
    ensures Inv(Apply(p, s))
  {
    match s
    case Begin(t) => BeginKeepsInv(p, t);
    case Split(t) => SplitKeepsInv(p, t);
    case Call(t) => CallKeepsInv(p, t);
    case Count(s) => CountKeepsInv(p, s);
  }

  // ----- Runs -----------------------------------------------------------------------------------------

  predicate CanRun(p: Pool, steps: seq<Step>)
    decreases |steps|, 0
  {
    steps == [] || (CanRun(p, steps[..|steps| - 1]) && Enabled(After(p, steps[..|steps| - 1]), steps[|steps| - 1]))
  }

  function After(p: Pool, steps: seq<Step>): Pool
    requires CanRun(p, steps)
    decreases |steps|, 1
  {
    if steps == [] then p else Apply(After(p, steps[..|steps| - 1]), steps[|steps| - 1])
  }

  lemma {:induction false} RunKeepsInv(p: Pool, steps: seq<Step>)
    requires Inv(p) && CanRun(p, steps)
    ensures Inv(After(p, steps))
    ensures After(p, steps).total == p.total && After(p, steps).block == p.block
  {
    if steps != [] {
      RunKeepsInv(p, steps[..|steps| - 1]);
      StepKeepsInv(After(p, steps[..|steps| - 1]), steps[|steps| - 1]);
    }
  }

  /** The function has been called exactly once on every block, and on nothing else. */
  ghost predicate CalledExactly(p: Pool)
    requires p.block > 0
  {
    multiset(p.calls) == multiset(Blocks(0, p.total, p.block))
  }

  /** In every interleaving: whatever has been called is a block of the range and has been called
      once; and when the caller returns, every block has been called, no task is left, and no
      thread touches the counter any more. */
  lemma ParallelForIsSafe(total: int, block: int, threads: int, spurious: nat, steps: seq<Step>)
    requires NumShards(total, block, threads) > 1
    requires CanRun(Start(total, block, threads, spurious), steps)
    ensures var p := After(Start(total, block, threads, spurious), steps);
            && multiset(p.calls) <= multiset(Blocks(0, total, block))
            && |p.counter.waiters| == 1
            && (p.counter.waiters[0].Returned? ==>
                  && multiset(p.calls) == multiset(Blocks(0, total, block))
                  && (forall t :: 0 <= t < |p.tasks| ==> p.tasks[t].Called?)
                  && (forall d :: 0 <= d < |p.counter.decs| ==> p.counter.decs[d].Out?))
  {
    StartInv(total, block, threads, spurious);
    RunKeepsInv(Start(total, block, threads, spurious), steps);
    StateIsSafe(After(Start(total, block, threads, spurious), steps));
  }

  /** What the invariant says about one state. */
  lemma StateIsSafe(p: Pool)
    requires Inv(p)
    ensures multiset(p.calls) <= multiset(Blocks(0, p.total, p.block))
    ensures |p.counter.waiters| == 1
    ensures p.counter.waiters[0].Returned? ==>
              && multiset(p.calls) == multiset(Blocks(0, p.total, p.block))
              && (forall t :: 0 <= t < |p.tasks| ==> p.tasks[t].Called?)
              && (forall d :: 0 <= d < |p.counter.decs| ==> p.counter.decs[d].Out?)
  {
    CounterRuns.SafeState(p.counter);
    CallsAreBlocks(p);
    if p.counter.waiters[0].Returned? {
      ReturnedMeansDone(p);
    }
  }

  lemma CallsAreBlocks(p: Pool)
    requires Inv(p)
    ensures multiset(p.calls) <= multiset(Blocks(0, p.total, p.block))
  {
    forall x ensures multiset(p.calls)[x] <= multiset(Blocks(0, p.total, p.block))[x] {
      assert Balanced(p, x);
    }
  }

  lemma ReturnedMeansDone(p: Pool)
    requires Inv(p) && forall d :: 0 <= d < |p.counter.decs| ==> p.counter.decs[d] != BC.BeforeSub
    ensures CalledExactly(p) && forall t :: 0 <= t < |p.tasks| ==> p.tasks[t].Called?
  {
    CounterCountsBlocks(p);
    BC.NoneRemaining(p.counter.decs);
    assert BlocksToCome(p.tasks, p.block) == 0;
    TotalZero(p.tasks, SizeOf(p.block));
    forall t | 0 <= t < |p.tasks| ensures p.tasks[t].Called? {
      assert SizeOf(p.block)(p.tasks[t]) == 0;
    }
    forall x ensures multiset(p.calls)[x] == multiset(Blocks(0, p.total, p.block))[x] {
      assert Balanced(p, x);
      TotalZero(p.tasks, CountOf(p.block, x));
    }
  }

  // ----- Every run ends ---------------------------------------------------------------------------------

  /** Splitting and calling still to be done for a task, given the number of its blocks. */
  function WorkOf(block: int): Task -> nat
    requires block > 0
  {
    (t: Task) =>
      if t.Called? then 0
      else if t.Pending? then 4 * |Blocks(t.first, t.last, block)| - 1
      else 4 * |Blocks(t.first, t.last, block)| - 2
  }

  function Measure(p: Pool): nat
    requires p.block > 0
  {
    Total(p.tasks, WorkOf(p.block)) + CounterRuns.Measure(p.counter)
  }

  lemma StepShrinksMeasure(p: Pool, s: Step)
    requires Inv(p) && Enabled(p, s)
    ensures Apply(p, s).block == p.block && Measure(Apply(p, s)) < Measure(p)
  {
    match s
    case Begin(t) =>
      TotalAfter(p.tasks, t, Running(p.tasks[t].first, p.tasks[t].last), WorkOf(p.block));
    case Split(t) =>
      var first, last := p.tasks[t].first, p.tasks[t].last;
      MidSplits(first, last, p.block);
      SplitShrinksWork(p.tasks, t, Mid(first, last, p.block), p.block);
    case Call(t) =>
      TotalAfter(p.tasks, t, Called(|p.calls|), WorkOf(p.block));
    case Count(s) =>
      CounterRuns.StepShrinksMeasure(p.counter, s);
  }

  lemma SplitShrinksWork(tasks: seq<Task>, t: nat, mid: int, block: int)
    requires block > 0 && t < |tasks| && tasks[t].Running?
    requires tasks[t].first < mid < tasks[t].last && (mid - tasks[t].first) % block == 0
    ensures Total(tasks[t := Running(tasks[t].first, mid)] + [Pending(mid, tasks[t].last)], WorkOf(block))
          < Total(tasks, WorkOf(block))
  {
    var left, right := Running(tasks[t].first, mid), Pending(mid, tasks[t].last);
    BlocksSplit(tasks[t].first, mid, tasks[t].last, block);
    TotalAfter(tasks, t, left, WorkOf(block));
    TotalAppend(tasks[t := left], right, WorkOf(block));
  }

  lemma {:induction false} RunsAreBounded(p: Pool, steps: seq<Step>)
    requires Inv(p) && CanRun(p, steps)
    ensures After(p, steps).block == p.block
    ensures |steps| + Measure(After(p, steps)) <= Measure(p)
  {
    if steps != [] {
      RunsAreBounded(p, steps[..|steps| - 1]);
      RunKeepsInv(p, steps[..|steps| - 1]);
      StepShrinksMeasure(After(p, steps[..|steps| - 1]), steps[|steps| - 1]);
    }
  }

  /** Only a spurious wakeup, if anything, could still happen. */
  ghost predicate AtRest(p: Pool) {
    forall s: Step :: Enabled(p, s) ==> s.Count? && s.s.Spurious?
  }

  /** When no thread can move, the caller has returned. */
  lemma RestMeansReturned(p: Pool)
    requires Inv(p) && AtRest(p)
    ensures p.counter.waiters[0].Returned?
  {
    forall t | 0 <= t < |p.tasks| ensures p.tasks[t].Called? {
      assert !Enabled(p, Begin(t)) && !Enabled(p, Split(t)) && !Enabled(p, Call(t));
    }
    TotalZero(p.tasks, SizeOf(p.block));
    forall d | 0 <= d < |p.counter.decs| ensures p.counter.decs[d] != BC.BeforeSub {
      assert !Enabled(p, Count(BC.FetchSub(d)));
    }
    if p.counter.waiters[0] == BC.BeforeOr {
      forall d | 0 <= d < |p.counter.decs| ensures p.counter.decs[d].Out? {
        assert p.counter.decs[d].Busy() ==> BC.SomeSlow(p.counter);
      }
      assert TaskFits(p, 0);
      assert Enabled(p, Count(BC.FetchOr(0)));
    }
    forall s: BC.Step | BC.Enabled(p.counter, s) ensures s.Spurious? {
      assert Enabled(p, Count(s));
    }
    CounterRuns.RestMeansThrough(p.counter);
  }

  /** Every run of the parallel for is finite, and one that cannot go on has returned to the caller
      with the function called exactly once on each `[k*b, min((k+1)*b, total))`. */
  lemma ParallelForCompletes(total: int, block: int, threads: int, spurious: nat, steps: seq<Step>)
    requires NumShards(total, block, threads) > 1
    requires CanRun(Start(total, block, threads, spurious), steps)
    ensures block > 0 && |steps| <= Measure(Start(total, block, threads, spurious))
    ensures var p, n := After(Start(total, block, threads, spurious), steps), NumShards(total, block, threads);
            AtRest(p) ==>
              && |p.counter.waiters| == 1 && p.counter.waiters[0].Returned?
              && multiset(p.calls) == multiset(seq(n, k => BlockAt(0, total, block, k)))
  {
    StartInv(total, block, threads, spurious);
    RunKeepsInv(Start(total, block, threads, spurious), steps);
    RunsAreBounded(Start(total, block, threads, spurious), steps);
    var p := After(Start(total, block, threads, spurious), steps);
    if AtRest(p) {
      RestMeansCalled(p);
      BlocksAt(0, total, block);
      assert Blocks(0, total, block) == seq(NumShards(total, block, threads), k => BlockAt(0, total, block, k));
    }
  }

  lemma RestMeansCalled(p: Pool)
    requires Inv(p) && AtRest(p)
    ensures p.counter.waiters[0].Returned? && CalledExactly(p)
  {
    RestMeansReturned(p);
    CounterRuns.SafeState(p.counter);
    ReturnedMeansDone(p);
  }

  /** One shard means one call on the whole range; that is the case exactly when splitting is
      impossible, pointless or not wanted. */
  lemma OneShardExactly(total: int, block: int, threads: int)
    ensures NumShards(total, block, threads) == 1 <==> block <= 0 || total <= 1 || total <= block || threads == 1
  {
    if block > 0 && total > block {
      QuotientPositive(total - 1, block);
      var x := total + block - 1;
      assert x == total - 1 + block;
      var q, r := (total - 1) / block, (total - 1) % block;
      assert x == (q + 1) * block + r;
      DivModUnique(x, block, q + 1, r);
    }
  }

  // ----- How many threads work --------------------------------------------------------------------------------

  /** What a task stands for: the block it has called, or its blocks to come. */
  function ShareOf(block: int): (Task -> nat)
    requires block > 0
  {
    (t: Task) => if t.Called? then 1 else |TaskBlocks(t, block)|
  }

  lemma {:induction false} TasksHaveShares(tasks: seq<Task>, block: int)
    requires block > 0
    ensures |tasks| <= Total(tasks, ShareOf(block))
  {
    if tasks != [] {
      TasksHaveShares(tasks[..|tasks| - 1], block);
    }
  }

  lemma SplitKeepsShares(tasks: seq<Task>, t: nat, mid: int, block: int)
    requires block > 0 && t < |tasks| && tasks[t].Running?
    requires tasks[t].first < mid < tasks[t].last && (mid - tasks[t].first) % block == 0
    ensures Total(tasks[t := Running(tasks[t].first, mid)] + [Pending(mid, tasks[t].last)], ShareOf(block))
         == Total(tasks, ShareOf(block))
  {
    var first, last := tasks[t].first, tasks[t].last;
    BlocksSplit(first, mid, last, block);
    TotalAfter(tasks, t, Running(first, mid), ShareOf(block));
    TotalAppend(tasks[t := Running(first, mid)], Pending(mid, last), ShareOf(block));
  }

  /** No step changes it. */
  lemma StepKeepsShares(p: Pool, s: Step)
    requires Enabled(p, s)
    ensures Apply(p, s).block == p.block && Apply(p, s).callerRuns == p.callerRuns
    ensures Total(Apply(p, s).tasks, ShareOf(p.block)) == Total(p.tasks, ShareOf(p.block))
  {
    match s
    case Begin(t) => TotalAfter(p.tasks, t, Running(p.tasks[t].first, p.tasks[t].last), ShareOf(p.block));
    case Split(t) =>
      MidSplits(p.tasks[t].first, p.tasks[t].last, p.block);
      SplitKeepsShares(p.tasks, t, Mid(p.tasks[t].first, p.tasks[t].last, p.block), p.block);
    case Call(t) => TotalAfter(p.tasks, t, Called(|p.calls|), ShareOf(p.block));
    case Count(_) =>
  }

  lemma {:induction false} RunKeepsShares(p: Pool, steps: seq<Step>)
    requires p.block > 0 && CanRun(p, steps)
    ensures After(p, steps).block == p.block && After(p, steps).callerRuns == p.callerRuns
    ensures Total(After(p, steps).tasks, ShareOf(p.block)) == Total(p.tasks, ShareOf(p.block))
  {
    if steps != [] {
      RunKeepsShares(p, steps[..|steps| - 1]);
      StepKeepsShares(After(p, steps[..|steps| - 1]), steps[|steps| - 1]);
    }
  }

  /** The caller works on a task itself exactly when there are no more blocks than threads in the pool,
      and then there are never more tasks than that; so never more than `threads` threads work. */
  lemma AtMostThreadsWork(total: int, block: int, threads: int, spurious: nat, steps: seq<Step>)
    requires NumShards(total, block, threads) > 1
    requires CanRun(Start(total, block, threads, spurious), steps)
    ensures block > 0
    ensures var p := After(Start(total, block, threads, spurious), steps);
            && (p.callerRuns <==> |Blocks(0, total, block)| <= threads)
            && |p.tasks| <= |Blocks(0, total, block)|
  {
    var start := Start(total, block, threads, spurious);
    RunKeepsShares(start, steps);
    TasksHaveShares(After(start, steps).tasks, block);
    BlocksCount(0, total, block);
    assert start.tasks[..0] == [];
  }

  // ----- One task's loop ------------------------------------------------------------------------------------

  /** The right half of `[first, last)`, from the first block boundary at or above the midpoint on. */
  predicate IsRightHalf(first: int, last: int, block: int, half: Range)
    requires block > 0
  {
    && half.1 == last && (half.0 - first) % block == 0
    && 0 <= half.0 - (first + (last - first) / 2) < block
  }

  /** Where what remains ends once these parts are scheduled. */
  function LeftOver(last: int, scheduled: seq<Range>): int {
    if scheduled == [] then last else scheduled[|scheduled| - 1].0
  }

  /** Each part is the right half of what the parts before it leave. */
  predicate AreRightHalves(first: int, last: int, block: int, scheduled: seq<Range>)
    requires block > 0
  {
    scheduled == [] ||
    var before := scheduled[..|scheduled| - 1];
    AreRightHalves(first, last, block, before)
    && IsRightHalf(first, LeftOver(last, before), block, scheduled[|scheduled| - 1])
  }

  /** One more right half that is scheduled. */
  lemma OneMoreHalf(first: int, last: int, block: int, scheduled: seq<Range>, half: Range)
    requires block > 0 && AreRightHalves(first, last, block, scheduled)
    requires IsRightHalf(first, LeftOver(last, scheduled), block, half)
    ensures AreRightHalves(first, last, block, scheduled + [half])
    ensures BlocksOfAll(scheduled + [half], block) == Blocks(half.0, half.1, block) + BlocksOfAll(scheduled, block)
  {
    assert (scheduled + [half])[..|scheduled|] == scheduled;
  }

  lemma HalfMovesOver(first: int, mid: int, l: int, block: int, rest: seq<Range>)
    requires block > 0 && first < mid < l && (mid - first) % block == 0
    ensures Blocks(first, l, block) + rest == Blocks(first, mid, block) + (Blocks(mid, l, block) + rest)
  {
    BlocksSplit(first, mid, l, block);
  }

  /** The loop of one task: schedules the right parts of its range, one after the other, and keeps
      the first block for itself. Last scheduled first, the pieces make up the range. */
  method HandleRange(first: int, last: int, block: int) returns (scheduled: seq<Range>, own: Range)
    requires block > 0 && first < last
    ensures own == Blocks(first, last, block)[0]
    ensures Blocks(first, last, block) == [own] + BlocksOfAll(scheduled, block)
    ensures forall i :: 0 <= i < |scheduled| ==> first < scheduled[i].0 < scheduled[i].1 <= last
    ensures AreRightHalves(first, last, block, scheduled)
  {
    scheduled := [];
    var l := last;
    while l - first > block
      invariant first < l <= last
      invariant Blocks(first, last, block) == Blocks(first, l, block) + BlocksOfAll(scheduled, block)
      invariant forall i :: 0 <= i < |scheduled| ==> first < scheduled[i].0 < scheduled[i].1 <= last
      invariant AreRightHalves(first, last, block, scheduled) && l == LeftOver(last, scheduled)
      decreases l - first
    {
      var mid := Mid(first, l, block);
      MidSplits(first, l, block);
      HalfMovesOver(first, mid, l, block, BlocksOfAll(scheduled, block));
      OneMoreHalf(first, last, block, scheduled, (mid, l));
      scheduled := scheduled + [(mid, l)];
      l := mid;
    }
    own := (first, l);
  }

  /** The blocks of scheduled ranges, last scheduled first. */
  function BlocksOfAll(scheduled: seq<Range>, block: int): seq<Range>
    requires block > 0
  {
    if scheduled == [] then []
    else
      var r := scheduled[|scheduled| - 1];
      Blocks(r.0, r.1, block) + BlocksOfAll(scheduled[..|scheduled| - 1], block)
  }
}
