/** A counter whose waiters sleep until it has been decremented to zero: an atomic word holding
    the count and, in its low bit, "somebody waits", and a mutex-guarded flag with a condition
    variable. Every atomic action of every thread is a step, in any interleaving. */
module BlockingCounter {
  import opened Sums

  /** Where a decrementing thread is. `Out(true)` is the one that found the count at zero and a
      waiter waiting. */
  datatype DecPc = BeforeSub | BeforeLock | InLock | BeforeNotify | BeforeUnlock | Out(last: bool) {
    // Has seen the count drop to zero with a waiter waiting.
    predicate IsLast() { BeforeLock? || InLock? || BeforeNotify? || BeforeUnlock? || (Out? && last) }
    predicate HasSet() { BeforeNotify? || BeforeUnlock? || (Out? && last) }
    predicate Holds() { InLock? || BeforeNotify? || BeforeUnlock? }
    predicate Busy() { IsLast() && !Out? }
    /** Own steps left, each of weight `k`. */
    function Left(k: nat): nat {
      match this
      case BeforeSub => 5 * k
      case BeforeLock => 4 * k
      case InLock => 3 * k
      case BeforeNotify => 2 * k
      case BeforeUnlock => k
      case Out(_) => 0
    }
  }

  /** Where a waiting thread is. */
  datatype WaitPc = BeforeOr | SlowLock | Checking | Sleeping | Woken | Returned(slow: bool) {
    predicate Slow() { SlowLock? || Checking? || Sleeping? || Woken? }
    predicate WantsLock() { SlowLock? || Woken? }
  }

  datatype Holder = Free | HeldByDec(d: nat) | HeldByWaiter(w: nat)

  /** `spurious` bounds how often the condition variable may still wake a thread for no reason. */
  datatype Counter = Counter(
    state: int,
    notified: bool,
    mutex: Holder,
    decs: seq<DecPc>,
    waiters: seq<WaitPc>,
    spurious: nat)

  datatype Step =
    | FetchSub(d: nat)
    | LockDec(d: nat)
    | SetNotified(d: nat)
    | NotifyAll(d: nat)
    | UnlockDec(d: nat)
    | FetchOr(w: nat)
    | LockWait(w: nat)
    | Check(w: nat)
    | Spurious(w: nat)

  /** `count` decrements to come, and `n` threads that wait. */
  function Initial(count: nat, n: nat, spurious: nat): Counter {
    Counter(2 * count, false, Free, seq(count, _ => BeforeSub), seq(n, _ => BeforeOr), spurious)
  }

  predicate Enabled(c: Counter, s: Step) {
    match s
    case FetchSub(d) => d < |c.decs| && c.decs[d] == BeforeSub
    case LockDec(d) => d < |c.decs| && c.decs[d] == BeforeLock && c.mutex == Free
    case SetNotified(d) => d < |c.decs| && c.decs[d] == InLock
    case NotifyAll(d) => d < |c.decs| && c.decs[d] == BeforeNotify
    case UnlockDec(d) => d < |c.decs| && c.decs[d] == BeforeUnlock
    case FetchOr(w) => w < |c.waiters| && c.waiters[w] == BeforeOr
    case LockWait(w) => w < |c.waiters| && c.waiters[w].WantsLock() && c.mutex == Free
    case Check(w) => w < |c.waiters| && c.waiters[w] == Checking
    case Spurious(w) => w < |c.waiters| && c.waiters[w] == Sleeping && c.spurious > 0
  }

  function WakeAll(waiters: seq<WaitPc>): (r: seq<WaitPc>)
    ensures |r| == |waiters|
    ensures forall w :: 0 <= w < |r| ==> r[w] == if waiters[w] == Sleeping then Woken else waiters[w]
  {
    seq(|waiters|, w requires 0 <= w < |waiters| => if waiters[w] == Sleeping then Woken else waiters[w])
  }

  function Apply(c: Counter, s: Step): Counter
    requires Enabled(c, s)
  {
    match s
    case FetchSub(d) =>
      var v := c.state - 2;
      c.(state := v, decs := c.decs[d := if v != 1 then Out(false) else BeforeLock])
    case LockDec(d) => c.(mutex := HeldByDec(d), decs := c.decs[d := InLock])
    case SetNotified(d) => c.(notified := true, decs := c.decs[d := BeforeNotify])
    case NotifyAll(d) => c.(waiters := WakeAll(c.waiters), decs := c.decs[d := BeforeUnlock])
    case UnlockDec(d) => c.(mutex := Free, decs := c.decs[d := Out(true)])
    case FetchOr(w) =>
      c.(state := if c.state % 2 == 0 then c.state + 1 else c.state,
         waiters := c.waiters[w := if c.state / 2 == 0 then Returned(false) else SlowLock])
    case LockWait(w) => c.(mutex := HeldByWaiter(w), waiters := c.waiters[w := Checking])
    case Check(w) => c.(mutex := Free, waiters := c.waiters[w := if c.notified then Returned(true) else Sleeping])
    case Spurious(w) => c.(spurious := c.spurious - 1, waiters := c.waiters[w := Woken])
  }

  // ----- The invariant ---------------------------------------------------------------------------

  /** Decrements that have not happened yet. */
  function Remaining(decs: seq<DecPc>): nat {
    Total(decs, ToDecrement())
  }

  function ToDecrement(): DecPc -> nat {
    (pc: DecPc) => if pc == BeforeSub then 1 else 0
  }

  lemma NoneRemaining(decs: seq<DecPc>)
    ensures Remaining(decs) == 0 <==> forall d :: 0 <= d < |decs| ==> decs[d] != BeforeSub
  {
    TotalZero(decs, ToDecrement());
    forall d | 0 <= d < |decs| ensures ToDecrement()(decs[d]) == 0 <==> decs[d] != BeforeSub {
    }
  }

  ghost predicate Flagged(c: Counter) {
    exists w :: 0 <= w < |c.waiters| && c.waiters[w] != BeforeOr
  }

  ghost predicate SomeLast(c: Counter) {
    exists d :: 0 <= d < |c.decs| && c.decs[d].IsLast()
  }

  ghost predicate SomeSet(c: Counter) {
    exists d :: 0 <= d < |c.decs| && c.decs[d].HasSet()
  }

  ghost predicate SomeSlow(c: Counter) {
    exists w :: 0 <= w < |c.waiters| && c.waiters[w].Slow()
  }

  ghost predicate MutexFits(c: Counter) {
    && (forall d :: 0 <= d < |c.decs| && c.decs[d].Holds() ==> c.mutex == HeldByDec(d))
    && (forall w :: 0 <= w < |c.waiters| && c.waiters[w] == Checking ==> c.mutex == HeldByWaiter(w))
    && (c.mutex.HeldByDec? ==> c.mutex.d < |c.decs| && c.decs[c.mutex.d].Holds())
    && (c.mutex.HeldByWaiter? ==> c.mutex.w < |c.waiters| && c.waiters[c.mutex.w] == Checking)
  }

  ghost predicate LastFits(c: Counter) {
    && (SomeLast(c) ==> Remaining(c.decs) == 0)
    && (forall d, e :: 0 <= d < e < |c.decs| ==> !(c.decs[d].IsLast() && c.decs[e].IsLast()))
    && (c.notified <==> SomeSet(c))
    && (forall d :: 0 <= d < |c.decs| && c.decs[d].Busy() ==> SomeSlow(c))
  }

  ghost predicate WaiterFits(c: Counter, w: int)
    requires 0 <= w < |c.waiters|
  {
    match c.waiters[w]
    case BeforeOr => true
    case Returned(slow) => Remaining(c.decs) == 0 && (slow ==> SomeSet(c))
    case Sleeping =>
      && (Remaining(c.decs) > 0 || SomeLast(c))
      && (c.notified ==> exists d :: 0 <= d < |c.decs| && c.decs[d] == BeforeNotify)
    case _ => Remaining(c.decs) > 0 || SomeLast(c)
  }

  ghost predicate Inv(c: Counter) {
    && c.state == 2 * Remaining(c.decs) + (if Flagged(c) then 1 else 0)
    && MutexFits(c) && LastFits(c)
    && forall w :: 0 <= w < |c.waiters| ==> WaiterFits(c, w)
  }

  lemma {:induction false} RemainingOfFresh(n: nat)
    ensures Remaining(seq(n, _ => BeforeSub)) == n
  {
    if n > 0 {
      RemainingOfFresh(n - 1);
      assert seq(n, _ => BeforeSub) == seq(n - 1, _ => BeforeSub) + [BeforeSub];
      TotalAppend(seq(n - 1, _ => BeforeSub), BeforeSub, ToDecrement());
    }
  }

  lemma InitialInv(count: nat, n: nat, spurious: nat)
    ensures Inv(Initial(count, n, spurious))
  {
    RemainingOfFresh(count);
  }

  // ----- Every step keeps it ------------------------------------------------------------------------

  lemma FetchSubKeepsInv(c: Counter, d: nat)
    requires Inv(c) && Enabled(c, FetchSub(d))
    ensures Inv(Apply(c, FetchSub(d)))
  {
    var r := Apply(c, FetchSub(d));
    TotalAfter(c.decs, d, r.decs[d], ToDecrement());
    assert Remaining(r.decs) == Remaining(c.decs) - 1;
    assert Flagged(r) == Flagged(c);
    assert !SomeLast(c);
    assert r.state == 2 * Remaining(r.decs) + (if Flagged(c) then 1 else 0);
    if r.decs[d] == BeforeLock {
      var w :| 0 <= w < |c.waiters| && c.waiters[w] != BeforeOr;
      assert WaiterFits(c, w);
      assert r.waiters[w].Slow();
    }
    forall w | 0 <= w < |r.waiters| ensures WaiterFits(r, w) {
      assert WaiterFits(c, w);
      if r.waiters[w].Slow() && Remaining(r.decs) == 0 {
        assert r.decs[d].IsLast();
      }
    }
  }

  lemma LockDecKeepsInv(c: Counter, d: nat)
    requires Inv(c) && Enabled(c, LockDec(d))
    ensures Inv(Apply(c, LockDec(d)))
  {
    var r := Apply(c, LockDec(d));
    TotalAfter(c.decs, d, InLock, ToDecrement());
    assert c.decs[d].IsLast() && r.decs[d].IsLast() && c.decs[d].Busy();
    assert forall w :: 0 <= w < |r.waiters| ==> r.waiters[w] == c.waiters[w] && WaiterFits(c, w);
    assert SomeSlow(r) && Flagged(r) == Flagged(c);
  }

  lemma SetNotifiedKeepsInv(c: Counter, d: nat)
    requires Inv(c) && Enabled(c, SetNotified(d))
    ensures Inv(Apply(c, SetNotified(d)))
  {
    var r := Apply(c, SetNotified(d));
    TotalAfter(c.decs, d, BeforeNotify, ToDecrement());
    assert c.decs[d].IsLast() && r.decs[d].IsLast() && c.decs[d].Busy() && r.decs[d].HasSet();
    assert forall w :: 0 <= w < |r.waiters| ==> r.waiters[w] == c.waiters[w] && WaiterFits(c, w);
    assert SomeSlow(r) && Flagged(r) == Flagged(c);
  }

  lemma NotifyAllKeepsInv(c: Counter, d: nat)
    requires Inv(c) && Enabled(c, NotifyAll(d))
    ensures Inv(Apply(c, NotifyAll(d)))
  {
    var r := Apply(c, NotifyAll(d));
    TotalAfter(c.decs, d, BeforeUnlock, ToDecrement());
    assert c.decs[d].IsLast() && r.decs[d].IsLast() && c.decs[d].Busy() && c.decs[d].HasSet() && r.decs[d].HasSet();
    assert forall w :: 0 <= w < |r.waiters| ==> r.waiters[w].Slow() == c.waiters[w].Slow() && WaiterFits(c, w);
    assert SomeSlow(r) && Flagged(r) == Flagged(c);
  }

  lemma UnlockDecKeepsInv(c: Counter, d: nat)
    requires Inv(c) && Enabled(c, UnlockDec(d))
    ensures Inv(Apply(c, UnlockDec(d)))
  {
    var r := Apply(c, UnlockDec(d));
    TotalAfter(c.decs, d, Out(true), ToDecrement());
    assert c.decs[d].IsLast() && r.decs[d].IsLast() && c.decs[d].HasSet() && r.decs[d].HasSet();
    assert forall w :: 0 <= w < |r.waiters| ==> r.waiters[w] == c.waiters[w] && WaiterFits(c, w);
    assert Flagged(r) == Flagged(c);
  }

  lemma FetchOrKeepsInv(c: Counter, w: nat)
    requires Inv(c) && Enabled(c, FetchOr(w))
    ensures Inv(Apply(c, FetchOr(w)))
  {
    var r := Apply(c, FetchOr(w));
    assert r.waiters[w] != BeforeOr && Flagged(r);
    assert c.state / 2 == Remaining(c.decs) && (c.state % 2 == 0 <==> !Flagged(c));
    assert forall v :: 0 <= v < |r.waiters| && v != w ==> r.waiters[v] == c.waiters[v] && WaiterFits(c, v);
    assert SomeSlow(c) ==> SomeSlow(r) by {
      if SomeSlow(c) {
        var v :| 0 <= v < |c.waiters| && c.waiters[v].Slow();
        assert r.waiters[v].Slow();
      }
    }
  }

  lemma LockWaitKeepsInv(c: Counter, w: nat)
    requires Inv(c) && Enabled(c, LockWait(w))
    ensures Inv(Apply(c, LockWait(w)))
  {
    var r := Apply(c, LockWait(w));
    assert WaiterFits(c, w) && r.waiters[w].Slow();
    assert forall v :: 0 <= v < |r.waiters| && v != w ==> r.waiters[v] == c.waiters[v] && WaiterFits(c, v);
    assert Flagged(r) && Flagged(c);
  }

  lemma CheckKeepsInv(c: Counter, w: nat)
    requires Inv(c) && Enabled(c, Check(w))
    ensures Inv(Apply(c, Check(w)))
  {
    var r := Apply(c, Check(w));
    assert WaiterFits(c, w) && c.mutex == HeldByWaiter(w);
    assert forall v :: 0 <= v < |r.waiters| && v != w ==> r.waiters[v] == c.waiters[v] && WaiterFits(c, v);
    assert Flagged(r) && Flagged(c) by {
      assert r.waiters[w] != BeforeOr && c.waiters[w] != BeforeOr;
    }
    if c.notified {
      var d :| 0 <= d < |c.decs| && c.decs[d].HasSet();
      assert c.decs[d].IsLast() && !c.decs[d].Holds();
    } else {
      assert r.waiters[w].Slow();
    }
  }

  lemma SpuriousKeepsInv(c: Counter, w: nat)
    requires Inv(c) && Enabled(c, Spurious(w))
    ensures Inv(Apply(c, Spurious(w)))
  {
    var r := Apply(c, Spurious(w));
    assert WaiterFits(c, w) && r.waiters[w].Slow();
    assert forall v :: 0 <= v < |r.waiters| && v != w ==> r.waiters[v] == c.waiters[v] && WaiterFits(c, v);
    assert Flagged(r) && Flagged(c) by {
      assert c.waiters[w] != BeforeOr;
    }
  }

  lemma StepKeepsInv(c: Counter, s: Step)
    requires Inv(c) && Enabled(c, s)
    ensures Inv(Apply(c, s))
  {
    match s
    case FetchSub(d) => FetchSubKeepsInv(c, d);
    case LockDec(d) => LockDecKeepsInv(c, d);
    case SetNotified(d) => SetNotifiedKeepsInv(c, d);
    case NotifyAll(d) => NotifyAllKeepsInv(c, d);
    case UnlockDec(d) => UnlockDecKeepsInv(c, d);
    case FetchOr(w) => FetchOrKeepsInv(c, w);
    case LockWait(w) => LockWaitKeepsInv(c, w);
    case Check(w) => CheckKeepsInv(c, w);
    case Spurious(w) => SpuriousKeepsInv(c, w);
  }
}
