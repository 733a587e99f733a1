/** Runs of the blocking counter: what holds after any number of steps, and that every run ends. */
module CounterRuns {
  import opened BlockingCounter
  import opened Sums

  predicate CanRun(c: Counter, steps: seq<Step>)
    decreases |steps|, 0
  {
    steps == [] || (CanRun(c, steps[..|steps| - 1])
                    && Enabled(After(c, steps[..|steps| - 1]), steps[|steps| - 1]))
  }

  /** The state after `steps`. */
  function After(c: Counter, steps: seq<Step>): Counter
    requires CanRun(c, steps)
    decreases |steps|, 1
  {
    if steps == [] then c else Apply(After(c, steps[..|steps| - 1]), steps[|steps| - 1])
  }

  lemma {:induction false} RunKeepsInv(c: Counter, steps: seq<Step>)
    requires Inv(c) && CanRun(c, steps)
    ensures Inv(After(c, steps))
    ensures |After(c, steps).decs| == |c.decs| && |After(c, steps).waiters| == |c.waiters|
  {
    if steps != [] {
      var before := After(c, steps[..|steps| - 1]);
      RunKeepsInv(c, steps[..|steps| - 1]);
      StepKeepsThreads(before, steps[|steps| - 1]);
      StepKeepsInv(before, steps[|steps| - 1]);
    }
  }

  /** A step neither starts nor ends threads. */
  lemma StepKeepsThreads(c: Counter, s: Step)
    requires Enabled(c, s)
    ensures |Apply(c, s).decs| == |c.decs| && |Apply(c, s).waiters| == |c.waiters|
  {
  }

  lemma {:induction false} RemainingAtMost(decs: seq<DecPc>)
    ensures Remaining(decs) <= |decs|
  {
    if decs != [] {
      var n := |decs| - 1;
      RemainingAtMost(decs[..n]);
      assert decs == decs[..n] + [decs[n]];
      TotalAppend(decs[..n], decs[n], ToDecrement());
    }
  }

  /** The word never leaves the range of what an initial count and a waiter bit need. */
  lemma WordStaysInRange(count: nat, n: nat, spurious: nat, steps: seq<Step>)
    requires CanRun(Initial(count, n, spurious), steps)
    ensures 0 <= After(Initial(count, n, spurious), steps).state <= 2 * count + 1
  {
    var c := Initial(count, n, spurious);
    InitialInv(count, n, spurious);
    RunKeepsInv(c, steps);
    RemainingAtMost(After(c, steps).decs);
  }

  /** `Wait` returns only after all decrements; the flag is set at most once; and once every waiter
      has returned, no thread touches the counter any more. */
  lemma WaitIsSafe(count: nat, n: nat, spurious: nat, steps: seq<Step>)
    requires CanRun(Initial(count, n, spurious), steps)
    ensures var c := After(Initial(count, n, spurious), steps);
            && (forall w, d :: 0 <= w < |c.waiters| && c.waiters[w].Returned? && 0 <= d < |c.decs| ==>
                  c.decs[d] != BeforeSub)
            && (forall d :: Enabled(c, SetNotified(d)) ==> !c.notified)
            && (n > 0 && (forall w :: 0 <= w < |c.waiters| ==> c.waiters[w].Returned?) ==>
                  |c.waiters| == n && forall d :: 0 <= d < |c.decs| ==> c.decs[d].Out?)
  {
    InitialInv(count, n, spurious);
    RunKeepsInv(Initial(count, n, spurious), steps);
    var c := After(Initial(count, n, spurious), steps);
    SafeState(c);
  }

  lemma SafeState(c: Counter)
    requires Inv(c)
    ensures forall w, d :: 0 <= w < |c.waiters| && c.waiters[w].Returned? && 0 <= d < |c.decs| ==>
              c.decs[d] != BeforeSub
    ensures forall d :: Enabled(c, SetNotified(d)) ==> !c.notified
    ensures |c.waiters| > 0 && (forall w :: 0 <= w < |c.waiters| ==> c.waiters[w].Returned?) ==>
              forall d :: 0 <= d < |c.decs| ==> c.decs[d].Out?
  {
    NoneRemaining(c.decs);
    forall w | 0 <= w < |c.waiters| && c.waiters[w].Returned? ensures Remaining(c.decs) == 0 {
      assert WaiterFits(c, w);
    }
    forall d: nat | Enabled(c, SetNotified(d)) ensures !c.notified {
      assert c.decs[d].IsLast() && !c.decs[d].HasSet();
      forall e | 0 <= e < |c.decs| ensures !c.decs[e].HasSet() {
        assert e != d ==> !c.decs[e].IsLast();
      }
    }
    if |c.waiters| > 0 && forall w :: 0 <= w < |c.waiters| ==> c.waiters[w].Returned? {
      assert WaiterFits(c, 0);
      forall d | 0 <= d < |c.decs| ensures c.decs[d].Out? {
        assert c.decs[d].Busy() ==> SomeSlow(c);
      }
    }
  }

  /** No lost wakeup: when every decrementing thread is through, no waiter is asleep. */
  lemma NobodyLeftAsleep(count: nat, n: nat, spurious: nat, steps: seq<Step>, w: nat)
    requires CanRun(Initial(count, n, spurious), steps)
    requires var c := After(Initial(count, n, spurious), steps);
             w < |c.waiters| && forall d :: 0 <= d < |c.decs| ==> c.decs[d].Out?
    ensures After(Initial(count, n, spurious), steps).waiters[w] != Sleeping
  {
    InitialInv(count, n, spurious);
    RunKeepsInv(Initial(count, n, spurious), steps);
    NotAsleep(After(Initial(count, n, spurious), steps), w);
  }

  lemma NotAsleep(c: Counter, w: nat)
    requires Inv(c) && w < |c.waiters| && forall d :: 0 <= d < |c.decs| ==> c.decs[d].Out?
    ensures c.waiters[w] != Sleeping
  {
    assert WaiterFits(c, w);
    NoneRemaining(c.decs);
    if SomeLast(c) {
      var d :| 0 <= d < |c.decs| && c.decs[d].IsLast();
      assert c.decs[d].HasSet();
    }
  }

  // ----- Every run ends, with every thread through ----------------------------------------------------

  function Budget(w: WaitPc): nat {
    match w
    case BeforeOr => 4
    case SlowLock => 3
    case Woken => 3
    case Checking => 2
    case Sleeping => 1
    case Returned(_) => 0
  }

  function DecsLeft(decs: seq<DecPc>, k: nat): nat {
    Total(decs, StepsLeft(k))
  }

  function StepsLeft(k: nat): DecPc -> nat {
    (pc: DecPc) => pc.Left(k)
  }

  function WaitersLeft(waiters: seq<WaitPc>): nat {
    Total(waiters, BudgetOf())
  }

  function BudgetOf(): WaitPc -> nat {
    (pc: WaitPc) => Budget(pc)
  }

  /** Waking everybody may cost every waiter two more steps, so a decrementer's step weighs more
      than that. */
  function Measure(c: Counter): nat {
    DecsLeft(c.decs, 2 * |c.waiters| + 1) + WaitersLeft(c.waiters) + 3 * c.spurious
  }

  lemma {:induction false} WakingCosts(waiters: seq<WaitPc>)
    ensures WaitersLeft(WakeAll(waiters)) <= WaitersLeft(waiters) + 2 * |waiters|
  {
    if waiters != [] {
      var n := |waiters| - 1;
      WakingCosts(waiters[..n]);
      assert WakeAll(waiters)[..n] == WakeAll(waiters[..n]);
    }
  }

  lemma WaiterStepShrinks(c: Counter, s: Step)
    requires Enabled(c, s) && (s.FetchOr? || s.LockWait? || s.Check? || s.Spurious?)
    ensures Measure(Apply(c, s)) < Measure(c)
  {
    TotalAfter(c.waiters, s.w, Apply(c, s).waiters[s.w], BudgetOf());
  }

  lemma DecStepShrinks(c: Counter, s: Step)
    requires Enabled(c, s) && !(s.FetchOr? || s.LockWait? || s.Check? || s.Spurious?)
    ensures Measure(Apply(c, s)) < Measure(c)
  {
    var r, k := Apply(c, s), 2 * |c.waiters| + 1;
    TotalAfter(c.decs, s.d, r.decs[s.d], StepsLeft(k));
    WakingCosts(c.waiters);
  }

  lemma StepShrinksMeasure(c: Counter, s: Step)
    requires Enabled(c, s)
    ensures Measure(Apply(c, s)) < Measure(c)
  {
    if s.FetchOr? || s.LockWait? || s.Check? || s.Spurious? {
      WaiterStepShrinks(c, s);
    } else {
      DecStepShrinks(c, s);
    }
  }

  /** No run is longer than its measure. */
  lemma {:induction false} RunsAreBounded(c: Counter, steps: seq<Step>)
    requires CanRun(c, steps)
    ensures |steps| + Measure(After(c, steps)) <= Measure(c)
  {
    if steps != [] {
      RunsAreBounded(c, steps[..|steps| - 1]);
      StepShrinksMeasure(After(c, steps[..|steps| - 1]), steps[|steps| - 1]);
    }
  }

  ghost predicate AllThrough(c: Counter) {
    && (forall d :: 0 <= d < |c.decs| ==> c.decs[d].Out?)
    && (forall w :: 0 <= w < |c.waiters| ==> c.waiters[w].Returned?)
  }

  /** Only a spurious wakeup, if anything, could still happen. */
  ghost predicate AtRest(c: Counter) {
    forall s: Step :: Enabled(c, s) ==> s.Spurious?
  }

  /** Nothing ever blocks for good: a state in which no thread can move is one in which all have
      finished. */
  lemma RestMeansThrough(c: Counter)
    requires Inv(c) && AtRest(c)
    ensures AllThrough(c)
  {
    forall d | 0 <= d < |c.decs| ensures c.decs[d].Out? || c.decs[d] == BeforeLock {
      assert !Enabled(c, FetchSub(d)) && !Enabled(c, SetNotified(d));
      assert !Enabled(c, NotifyAll(d)) && !Enabled(c, UnlockDec(d));
    }
    forall w | 0 <= w < |c.waiters| ensures c.waiters[w] != BeforeOr && c.waiters[w] != Checking {
      assert !Enabled(c, FetchOr(w)) && !Enabled(c, Check(w));
    }
    assert c.mutex == Free;
    forall d | 0 <= d < |c.decs| ensures c.decs[d].Out? {
      assert !Enabled(c, LockDec(d));
    }
    forall w | 0 <= w < |c.waiters| ensures c.waiters[w].Returned? {
      assert !Enabled(c, LockWait(w));
      NotAsleep(c, w);
    }
  }

  /** Every run from the start is finite, and one that cannot go on has brought every thread
      through. */
  lemma EveryRunEndsThrough(count: nat, n: nat, spurious: nat, steps: seq<Step>)
    requires CanRun(Initial(count, n, spurious), steps)
    ensures |steps| <= Measure(Initial(count, n, spurious))
    ensures AtRest(After(Initial(count, n, spurious), steps)) ==> AllThrough(After(Initial(count, n, spurious), steps))
  {
    InitialInv(count, n, spurious);
    RunKeepsInv(Initial(count, n, spurious), steps);
    RunsAreBounded(Initial(count, n, spurious), steps);
    if AtRest(After(Initial(count, n, spurious), steps)) {
      RestMeansThrough(After(Initial(count, n, spurious), steps));
    }
  }
}
