/** The byte arena in which the planner packs tensors: a plan (entries sorted by offset) and a
    buffer that is allocated, grown, released and re-acquired underneath the plan. */
module MemoryArena {
  import opened Basics
  import opened Modular

  datatype Status = Ok | Error

  datatype Alloc = Alloc(offset: nat, size: nat, tensor: int, firstNode: int, lastNode: int) {
    function End(): nat { offset + size }

    /** Do the (inclusive) node intervals meet? */
    predicate InUse(first: int, last: int) { !(lastNode < first || firstNode > last) }
  }

  const RESET_ALLOC: Alloc := Alloc(0, 0, -1, -1, -1)

  function AlignTo(alignment: nat, offset: nat): (r: nat)
    requires alignment > 0
    ensures r % alignment == 0 && offset <= r < offset + alignment
  {
    if offset % alignment == 0 then offset
    else
      assert (offset + (alignment - offset % alignment)) % alignment == 0 by {
        assert offset + (alignment - offset % alignment) == (offset / alignment + 1) * alignment;
        MultipleMod(offset / alignment + 1, alignment);
      }
      offset + (alignment - offset % alignment)
  }

  // ----- The plan ---------------------------------------------------------------------------

  /** The bytes of two entries do not meet. */
  predicate DisjointBytes(a: Alloc, b: Alloc) {
    a.End() <= b.offset || b.End() <= a.offset
  }

  predicate SortedByOffset(entries: seq<Alloc>) {
    forall i, j :: 0 <= i < j < |entries| ==> entries[i].offset <= entries[j].offset
  }

  /** What every plan keeps: entries are sorted, non-empty, below the high-water mark, and two
      entries that are in use at a common node never share a byte. */
  ghost predicate SoundPlan(entries: seq<Alloc>, high: nat) {
    && SortedByOffset(entries)
    && (forall i :: 0 <= i < |entries| ==> entries[i].size > 0 && entries[i].End() <= high)
    && (forall i, j :: 0 <= i < j < |entries| && entries[i].InUse(entries[j].firstNode, entries[j].lastNode)
          ==> DisjointBytes(entries[i], entries[j]))
  }

  /** Every entry starts at a multiple of `alignment`. */
  ghost predicate AlignedPlan(entries: seq<Alloc>, alignment: nat)
    requires alignment > 0
  {
    forall e :: e in entries ==> e.offset % alignment == 0
  }

  datatype Request = Request(alignment: nat, size: nat, tensor: int, first: int, last: int)

  /** The record of a request placed at `offset`. */
  function Recorded(q: Request, offset: nat): Alloc {
    Alloc(offset, q.size, q.tensor, q.first, q.last)
  }

  // State of the gap search: the end of the bytes in use so far, and the best gap so far with
  // its recorded (unaligned) length.
  datatype Search = Search(current: nat, bestOffset: nat, bestFit: nat)

  function ScanEntry(s: Search, e: Alloc, q: Request): Search
    requires q.alignment > 0
  {
    if !e.InUse(q.first, q.last) then s
    else
      var aligned := AlignTo(q.alignment, s.current);
      var current := if s.current >= e.End() then s.current else e.End();
      if aligned + q.size <= e.offset && e.offset - aligned < s.bestFit then
        Search(current, aligned, e.offset - s.current)
      else
        Search(current, s.bestOffset, s.bestFit)
  }

  function ScanGaps(entries: seq<Alloc>, q: Request): Search
    requires q.alignment > 0
  {
    if entries == [] then Search(0, SIZE_MAX, SIZE_MAX)
    else ScanEntry(ScanGaps(entries[..|entries| - 1], q), entries[|entries| - 1], q)
  }

  function ChooseOffset(entries: seq<Alloc>, q: Request): nat
    requires q.alignment > 0
  {
    var s := ScanGaps(entries, q);
    if s.bestOffset == SIZE_MAX then AlignTo(q.alignment, s.current) else s.bestOffset
  }

  /** The bytes of `a` are free of every entry in use at a node of its interval. */
  ghost predicate FreeOf(entries: seq<Alloc>, a: Alloc) {
    forall i :: 0 <= i < |entries| && entries[i].InUse(a.firstNode, a.lastNode) ==> DisjointBytes(entries[i], a)
  }

  lemma {:induction false} ScanGapsMeaning(entries: seq<Alloc>, q: Request, high: nat)
    requires SortedByOffset(entries) && q.alignment > 0
    requires forall i :: 0 <= i < |entries| ==> entries[i].End() <= high
    requires high < SIZE_MAX
    ensures var s := ScanGaps(entries, q);
            && s.current <= high
            && (forall i :: 0 <= i < |entries| && entries[i].InUse(q.first, q.last) ==> entries[i].End() <= s.current)
            && (s.bestOffset != SIZE_MAX ==>
                  && entries != []
                  && s.bestOffset % q.alignment == 0
                  && s.bestOffset + q.size <= entries[|entries| - 1].offset
                  && FreeOf(entries, Recorded(q, s.bestOffset)))
            && (s.bestOffset == SIZE_MAX ==> s.bestFit == SIZE_MAX)
  {
    if entries != [] {
      ScanGapsMeaning(entries[..|entries| - 1], q, high);
    }
  }

  /** The chosen range is aligned, free of every entry in use at a common node, and ends at most
      `alignment + size` above the high-water mark. */
  lemma ChooseOffsetIsFree(entries: seq<Alloc>, q: Request, high: nat)
    requires SortedByOffset(entries) && q.alignment > 0
    requires forall i :: 0 <= i < |entries| ==> entries[i].End() <= high
    requires high < SIZE_MAX
    ensures ChooseOffset(entries, q) % q.alignment == 0
    ensures FreeOf(entries, Recorded(q, ChooseOffset(entries, q)))
    ensures ChooseOffset(entries, q) + q.size < high + q.alignment + q.size
  {
    ScanGapsMeaning(entries, q, high);
  }

  // ----- When a gap is used -------------------------------------------------------------------------

  /** An aligned place for `q`, free of every entry in use, below one of those entries. */
  ghost predicate GapAt(entries: seq<Alloc>, q: Request, at: nat)
    requires q.alignment > 0
  {
    && at % q.alignment == 0 && FreeOf(entries, Recorded(q, at))
    && exists i :: 0 <= i < |entries| && entries[i].InUse(q.first, q.last) && at + q.size <= entries[i].offset
  }

  lemma AlignToIsLeast(alignment: nat, offset: nat, x: nat)
    requires alignment > 0 && x % alignment == 0 && offset <= x
    ensures AlignTo(alignment, offset) <= x
  {
    if x < AlignTo(alignment, offset) {
      NextMultiple(x, AlignTo(alignment, offset), alignment);
    }
  }

  /** The search never looks past the end of an entry in use. */
  lemma {:induction false} ScanStaysBelow(entries: seq<Alloc>, q: Request, x: nat)
    requires q.alignment > 0
    requires forall i :: 0 <= i < |entries| && entries[i].InUse(q.first, q.last) ==> entries[i].End() <= x
    ensures ScanGaps(entries, q).current <= x
  {
    if entries != [] {
      ScanStaysBelow(entries[..|entries| - 1], q, x);
    }
  }

  /** An entry above an aligned place that the scan has passed makes it take a gap, if it had none. */
  lemma EntryLeavesGap(s: Search, e: Alloc, q: Request, at: nat)
    requires q.alignment > 0 && at % q.alignment == 0 && e.InUse(q.first, q.last)
    requires s.current <= at && at + q.size <= e.offset < SIZE_MAX
    requires s.bestOffset == SIZE_MAX ==> s.bestFit == SIZE_MAX
    ensures ScanEntry(s, e, q).bestOffset != SIZE_MAX
  {
    AlignToIsLeast(q.alignment, s.current, at);
  }

  /** A gap below the last entry only. */
  lemma LastGapIsFound(entries: seq<Alloc>, q: Request, high: nat, at: nat)
    requires SortedByOffset(entries) && q.alignment > 0 && high < SIZE_MAX && entries != []
    requires forall i :: 0 <= i < |entries| ==> entries[i].End() <= high
    requires at % q.alignment == 0 && FreeOf(entries, Recorded(q, at))
    requires entries[|entries| - 1].InUse(q.first, q.last) && at + q.size <= entries[|entries| - 1].offset
    requires forall i :: 0 <= i < |entries| - 1 && entries[i].InUse(q.first, q.last) ==> at + q.size > entries[i].offset
    ensures ScanGaps(entries, q).bestOffset != SIZE_MAX
  {
    var before, e := entries[..|entries| - 1], entries[|entries| - 1];
    forall i | 0 <= i < |before| && before[i].InUse(q.first, q.last) ensures before[i].End() <= at {
      assert before[i] == entries[i] && DisjointBytes(entries[i], Recorded(q, at));
    }
    ScanStaysBelow(before, q, at);
    ScanGapsMeaning(before, q, high);
    EntryLeavesGap(ScanGaps(before, q), e, q, at);
  }

  lemma {:induction false} GapIsFound(entries: seq<Alloc>, q: Request, high: nat, at: nat)
    requires SortedByOffset(entries) && q.alignment > 0 && high < SIZE_MAX && GapAt(entries, q, at)
    requires forall i :: 0 <= i < |entries| ==> entries[i].End() <= high
    ensures ScanGaps(entries, q).bestOffset != SIZE_MAX
  {
    var n := |entries| - 1;
    if exists i :: 0 <= i < n && entries[i].InUse(q.first, q.last) && at + q.size <= entries[i].offset {
      var before := entries[..n];
      var i :| 0 <= i < n && entries[i].InUse(q.first, q.last) && at + q.size <= entries[i].offset;
      assert before[i] == entries[i];
      assert FreeOf(before, Recorded(q, at));
      GapIsFound(before, q, high, at);
    } else {
      LastGapIsFound(entries, q, high, at);
    }
  }

  lemma {:induction false} FoundIsGap(entries: seq<Alloc>, q: Request, high: nat)
    requires SortedByOffset(entries) && q.alignment > 0 && high < SIZE_MAX
    requires forall i :: 0 <= i < |entries| ==> entries[i].End() <= high
    requires ScanGaps(entries, q).bestOffset != SIZE_MAX
    ensures GapAt(entries, q, ScanGaps(entries, q).bestOffset)
  {
    var n := |entries| - 1;
    var before, best := entries[..n], ScanGaps(entries, q).bestOffset;
    ScanGapsMeaning(entries, q, high);
    if ScanGaps(before, q).bestOffset == best {
      FoundIsGap(before, q, high);
      var i :| 0 <= i < n && before[i].InUse(q.first, q.last) && best + q.size <= before[i].offset;
      assert entries[i] == before[i];
    }
  }

  /** A request goes into a gap exactly when there is one; only otherwise may the plan grow. */
  lemma GapIffThereIsOne(entries: seq<Alloc>, q: Request, high: nat)
    requires SortedByOffset(entries) && q.alignment > 0 && high < SIZE_MAX
    requires forall i :: 0 <= i < |entries| ==> entries[i].End() <= high
    ensures ScanGaps(entries, q).bestOffset != SIZE_MAX <==> exists at :: GapAt(entries, q, at)
    ensures (exists at :: GapAt(entries, q, at)) ==> GapAt(entries, q, ChooseOffset(entries, q))
    ensures ChooseOffset(entries, q) + q.size > high ==> forall at :: !GapAt(entries, q, at)
  {
    if at :| GapAt(entries, q, at) {
      GapIsFound(entries, q, high, at);
    }
    if ScanGaps(entries, q).bestOffset != SIZE_MAX {
      FoundIsGap(entries, q, high);
    }
  }

  /** An aligned place at or above the end of every entry in use. */
  ghost predicate IsAbove(entries: seq<Alloc>, q: Request, at: nat)
    requires q.alignment > 0
  {
    && at % q.alignment == 0
    && forall i :: 0 <= i < |entries| && entries[i].InUse(q.first, q.last) ==> entries[i].End() <= at
  }

  /** Where a request may go: into a gap if there is one, and otherwise to the lowest aligned place above
      the bytes in use at its own nodes. */
  ghost predicate GoesTo(entries: seq<Alloc>, q: Request, at: nat)
    requires q.alignment > 0
  {
    if exists x :: GapAt(entries, q, x) then GapAt(entries, q, at)
    else IsAbove(entries, q, at) && forall x: nat :: IsAbove(entries, q, x) ==> at <= x
  }

  lemma ChooseOffsetGoesThere(entries: seq<Alloc>, q: Request, high: nat)
    requires SortedByOffset(entries) && q.alignment > 0 && high < SIZE_MAX
    requires forall i :: 0 <= i < |entries| ==> entries[i].End() <= high
    ensures GoesTo(entries, q, ChooseOffset(entries, q))
  {
    GapIffThereIsOne(entries, q, high);
    ScanGapsMeaning(entries, q, high);
    if forall x :: !GapAt(entries, q, x) {
      forall x: nat | IsAbove(entries, q, x) ensures ChooseOffset(entries, q) <= x {
        ScanStaysBelow(entries, q, x);
        AlignToIsLeast(q.alignment, ScanGaps(entries, q).current, x);
      }
    }
  }

  /** A tensor that lives together with no other one reuses the arena from its first byte on. */
  lemma AloneGoesFirst(entries: seq<Alloc>, q: Request, at: nat)
    requires q.alignment > 0 && GoesTo(entries, q, at)
    requires forall i :: 0 <= i < |entries| ==> !entries[i].InUse(q.first, q.last)
    ensures at == 0
  {
    assert IsAbove(entries, q, 0);
  }

  // ----- Aligned addresses ---------------------------------------------------------------------------

  /** A tensor at an aligned offset of an aligned buffer has an aligned address. */
  predicate AddressAligned(base: nat, offset: nat, arenaAlignment: nat, tensorAlignment: nat)
    requires arenaAlignment > 0 && tensorAlignment > 0
  {
    base % arenaAlignment == 0 && offset % tensorAlignment == 0 ==> (base + offset) % tensorAlignment == 0
  }

  /** That holds of all buffers exactly when the tensor alignment divides the arena alignment. The
      check in `Allocate` only compares them. */
  lemma AddressesAlignedIff(arenaAlignment: nat, tensorAlignment: nat)
    requires arenaAlignment > 0 && tensorAlignment > 0
    ensures (forall base, offset :: AddressAligned(base, offset, arenaAlignment, tensorAlignment))
       <==> arenaAlignment % tensorAlignment == 0
  {
    if arenaAlignment % tensorAlignment == 0 {
      forall base: nat, offset: nat ensures AddressAligned(base, offset, arenaAlignment, tensorAlignment) {
        if base % arenaAlignment == 0 {
          DividesTransitive(base, arenaAlignment, tensorAlignment);
          AddMultiple(offset, base, tensorAlignment);
        }
      }
    } else {
      MultipleMod(1, arenaAlignment);
      assert !AddressAligned(arenaAlignment, 0, arenaAlignment, tensorAlignment);
    }
  }

  /** An alignment of 48 passes that check in an arena of 64, but a tensor at the start of a buffer at
      address 64 is not aligned. */
  lemma SmallerIsNotEnough()
    ensures 48 <= 64 && !AddressAligned(64, 0, 64, 48)
  {
  }

  /** The number of leading entries that come before offset `at`. */
  function InsertPosition(entries: seq<Alloc>, at: nat): (k: nat)
    ensures k <= |entries|
    ensures forall i :: 0 <= i < k ==> entries[i].offset < at
    ensures k < |entries| ==> entries[k].offset >= at
  {
    if entries == [] || entries[0].offset >= at then 0 else 1 + InsertPosition(entries[1..], at)
  }

  function InsertSorted(entries: seq<Alloc>, a: Alloc): seq<Alloc> {
    var k := InsertPosition(entries, a.offset);
    entries[..k] + [a] + entries[k..]
  }

  lemma InsertSortedContents(entries: seq<Alloc>, a: Alloc)
    ensures multiset(InsertSorted(entries, a)) == multiset(entries) + multiset{a}
    ensures forall e :: e in InsertSorted(entries, a) <==> e == a || e in entries
  {
    var k := InsertPosition(entries, a.offset);
    assert entries == entries[..k] + entries[k..];
  }

  /** Placing a request keeps the plan sound. */
  lemma PlacementIsSound(entries: seq<Alloc>, high: nat, a: Alloc)
    requires SoundPlan(entries, high) && a.size > 0
    requires FreeOf(entries, a)
    ensures SoundPlan(InsertSorted(entries, a), if high >= a.End() then high else a.End())
  {
    var k := InsertPosition(entries, a.offset);
    var r := InsertSorted(entries, a);
    forall i, j | 0 <= i < j < |r|
      ensures r[i].offset <= r[j].offset
      ensures r[i].InUse(r[j].firstNode, r[j].lastNode) ==> DisjointBytes(r[i], r[j])
    {
      if j < k {
        assert r[i] == entries[i] && r[j] == entries[j];
      } else if j == k {
        assert r[i] == entries[i] && r[j] == a;
      } else if i < k {
        assert r[i] == entries[i] && r[j] == entries[j - 1];
      } else if i == k {
        assert r[i] == a && r[j] == entries[j - 1];
      } else {
        assert r[i] == entries[i - 1] && r[j] == entries[j - 1];
      }
    }
  }

  /** What `Allocate` needs: the chosen range is where the request goes, and placing it there is sound. */
  lemma ChosenIsSound(entries: seq<Alloc>, high: nat, q: Request)
    requires SoundPlan(entries, high) && q.alignment > 0 && q.size > 0 && high < SIZE_MAX
    ensures var a := Recorded(q, ChooseOffset(entries, q));
            && GoesTo(entries, q, a.offset) && FreeOf(entries, a)
            && SoundPlan(InsertSorted(entries, a), if high >= a.End() then high else a.End())
  {
    ChooseOffsetIsFree(entries, q, high);
    ChooseOffsetGoesThere(entries, q, high);
    PlacementIsSound(entries, high, Recorded(q, ChooseOffset(entries, q)));
  }

  function RemoveTensor(entries: seq<Alloc>, tensor: int): seq<Alloc> {
    if entries == [] then []
    else
      var rest := RemoveTensor(entries[..|entries| - 1], tensor);
      var e := entries[|entries| - 1];
      if e.tensor == tensor then rest else rest + [e]
  }

  lemma {:induction false} RemoveTensorContents(entries: seq<Alloc>, tensor: int)
    ensures forall e :: e in RemoveTensor(entries, tensor) <==> e in entries && e.tensor != tensor
    ensures |RemoveTensor(entries, tensor)| <= |entries|
  {
    if entries != [] {
      var n := |entries| - 1;
      RemoveTensorContents(entries[..n], tensor);
      assert entries == entries[..n] + [entries[n]];
    }
  }

  lemma AppendIsSound(entries: seq<Alloc>, high: nat, a: Alloc)
    requires SoundPlan(entries, high) && a.size > 0 && a.End() <= high
    requires forall e :: e in entries ==>
               e.offset <= a.offset && (e.InUse(a.firstNode, a.lastNode) ==> DisjointBytes(e, a))
    ensures SoundPlan(entries + [a], high)
  {
  }

  lemma {:induction false} RemoveTensorIsSound(entries: seq<Alloc>, high: nat, tensor: int)
    requires SoundPlan(entries, high)
    ensures SoundPlan(RemoveTensor(entries, tensor), high)
  {
    if entries != [] {
      var n := |entries| - 1;
      RemoveTensorIsSound(entries[..n], high, tensor);
      RemoveTensorContents(entries[..n], tensor);
      var rest, a := RemoveTensor(entries[..n], tensor), entries[n];
      if a.tensor != tensor {
        forall e | e in rest
          ensures e.offset <= a.offset && (e.InUse(a.firstNode, a.lastNode) ==> DisjointBytes(e, a))
        {
          var m :| 0 <= m < n && entries[..n][m] == e;
        }
        AppendIsSound(rest, high, a);
      }
    }
  }

  /** How many entries `Deallocate` erases. */
  function Occurrences(entries: seq<Alloc>, tensor: int): nat {
    if entries == [] then 0
    else Occurrences(entries[..|entries| - 1], tensor) + (if entries[|entries| - 1].tensor == tensor then 1 else 0)
  }

  // ----- The loops of `Allocate` and `Deallocate` ---------------------------------------------

  /** The loop over the sorted entries that looks at the gaps between them. */
  method FindOffset(entries: seq<Alloc>, q: Request) returns (bestOffset: nat)
    requires q.alignment > 0
    ensures bestOffset == ChooseOffset(entries, q)
    ensures SortedByOffset(entries) && (forall i :: 0 <= i < |entries| ==> entries[i].End() < SIZE_MAX) ==>
              GoesTo(entries, q, bestOffset)
  {
    var bestFit: nat, current: nat := SIZE_MAX, 0;
    bestOffset := SIZE_MAX;
    var i := 0;
    while i < |entries|
      invariant 0 <= i <= |entries|
      invariant Search(current, bestOffset, bestFit) == ScanGaps(entries[..i], q)
    {
      var e := entries[i];
      assert entries[..i + 1][..i] == entries[..i];
      i := i + 1;
      if e.lastNode < q.first || e.firstNode > q.last {
        continue;
      }
      var aligned := AlignTo(q.alignment, current);
      if aligned + q.size <= e.offset && e.offset - aligned < bestFit {
        bestOffset := aligned;
        bestFit := e.offset - current;
      }
      current := if current >= e.offset + e.size then current else e.offset + e.size;
    }
    assert entries[..i] == entries;
    if bestOffset == SIZE_MAX {
      bestOffset := AlignTo(q.alignment, current);
    }
    if SortedByOffset(entries) && forall j :: 0 <= j < |entries| ==> entries[j].End() < SIZE_MAX {
      ChooseOffsetGoesThere(entries, q, SIZE_MAX - 1);
    }
  }

  /** The insertion loop: after every entry with a smaller offset, before all others. */
  method Inserted(entries: seq<Alloc>, a: Alloc) returns (r: seq<Alloc>)
    ensures r == InsertSorted(entries, a)
  {
    var at := 0;
    while at < |entries| && entries[at].offset < a.offset
      invariant 0 <= at <= |entries|
      invariant InsertPosition(entries, a.offset) == at + InsertPosition(entries[at..], a.offset)
    {
      at := at + 1;
    }
    r := entries[..at] + [a] + entries[at..];
  }

  /** The erasing loop, and the number of entries it erased. */
  method Erased(entries: seq<Alloc>, tensor: int) returns (r: seq<Alloc>, erased: nat)
    ensures r == RemoveTensor(entries, tensor)
    ensures erased == Occurrences(entries, tensor)
  {
    r, erased := entries, 0;
    var it := 0;
    while it < |r|
      invariant 0 <= it <= |r| <= |entries|
      invariant r[..it] == RemoveTensor(entries[..|entries| - |r| + it], tensor)
      invariant r[it..] == entries[|entries| - |r| + it..]
      invariant erased == Occurrences(entries[..|entries| - |r| + it], tensor)
      decreases |r| - it
    {
      ghost var seen := |entries| - |r| + it;
      assert entries[..seen + 1][..seen] == entries[..seen];
      assert entries[seen] == r[it..][0] == r[it];
      assert r[it + 1..] == r[it..][1..] == entries[seen + 1..];
      assert (r[..it] + r[it + 1..])[it..] == r[it + 1..];
      if r[it].tensor == tensor {
        erased := erased + 1;
        r := r[..it] + r[it + 1..];
      } else {
        it := it + 1;
      }
    }
    assert entries[..|entries|] == entries && r[..it] == r;
  }

  // ----- The arena --------------------------------------------------------------------------

  /** `address` is where the heap put the current buffer; the arena hands out addresses from the
      first aligned one at or above it. */
  class SimpleMemoryArena {
    const arenaAlignment: nat
    var committed: bool
    var highWaterMark: nat
    var buffer: array?<byte>
    var address: nat
    var alignedStart: nat
    var orderedAllocs: seq<Alloc>
    // The high-water mark that the current buffer was last committed for.
    ghost var committedHigh: nat

    function BufferSize(): nat
      reads this, buffer
    {
      if buffer == null then 0 else buffer.Length
    }

    function RequiredBufferSize(): nat
      reads this
    {
      arenaAlignment + highWaterMark + arenaAlignment
    }

    function BasePointer(): nat
      reads this
    {
      address + alignedStart
    }

    ghost predicate Valid()
      reads this, buffer
    {
      && arenaAlignment > 0
      && SoundPlan(orderedAllocs, highWaterMark)
      && committedHigh <= highWaterMark
      && (buffer == null ==> committedHigh == 0 && !committed)
      && (buffer != null ==>
            && alignedStart == AlignTo(arenaAlignment, address) - address
            && buffer.Length >= arenaAlignment + committedHigh + arenaAlignment)
    }

    /** The first `n` bytes that the arena provides. */
    ghost function Bytes(n: nat): (s: seq<byte>)
      requires buffer != null && alignedStart + n <= buffer.Length
      reads this`buffer, this`alignedStart, buffer
    {
      buffer[alignedStart..alignedStart + n]
    }

    /** The bytes below the mark that the buffer was last committed for. */
    ghost function CommittedBytes(): (s: seq<byte>)
      requires buffer != null ==> alignedStart + committedHigh <= buffer.Length
      reads this`buffer, this`alignedStart, this`committedHigh, buffer
    {
      if buffer == null then [] else Bytes(committedHigh)
    }

    /** Does the arena provide `bytes`, from its first byte on? */
    ghost predicate Holds(bytes: seq<byte>)
      reads this`buffer, this`alignedStart, buffer
    {
      bytes == [] || (buffer != null && alignedStart + |bytes| <= buffer.Length && Bytes(|bytes|) == bytes)
    }

    /** All the bytes that the arena provides. */
    ghost function UsableBytes(): (s: seq<byte>)
      requires buffer != null ==> alignedStart <= buffer.Length
      reads this`buffer, this`alignedStart, buffer
    {
      if buffer == null then [] else buffer[alignedStart..]
    }

    lemma HoldsFirst(bytes: seq<byte>)
      requires Holds(bytes) && (buffer != null ==> alignedStart <= buffer.Length)
      ensures |bytes| <= |UsableBytes()| && UsableBytes()[..|bytes|] == bytes
    {
      if bytes != [] {
        assert UsableBytes()[..|bytes|] == Bytes(|bytes|);
      }
    }

    lemma HoldsItsBytes()
      requires Valid()
      ensures Holds(CommittedBytes())
    {
    }

    constructor (alignment: nat)
      requires alignment > 0
      ensures Valid() && arenaAlignment == alignment
      ensures orderedAllocs == [] && highWaterMark == 0 && buffer == null && !committed
    {
      arenaAlignment := alignment;
      committed, highWaterMark, orderedAllocs := false, 0, [];
      buffer, address, alignedStart := null, 0, 0;
      committedHigh := 0;
    }

    /** Plans `q`: on success the record and the plan are exactly those of the gap search. */
    method Allocate(q: Request, oldAlloc: Alloc) returns (status: Status, alloc: Alloc)
      requires Valid() && q.alignment > 0
      requires highWaterMark + q.alignment + q.size <= SIZE_MAX
      modifies this`orderedAllocs, this`highWaterMark
      ensures Valid()
      ensures status == (if q.alignment <= arenaAlignment then Ok else Error)
      ensures status == Error ==> alloc == oldAlloc
      ensures status == Ok ==> alloc == Recorded(q, if q.size == 0 then 0 else ChooseOffset(old(orderedAllocs), q))
      ensures status == Ok && q.size > 0 ==>
                GoesTo(old(orderedAllocs), q, alloc.offset) && FreeOf(old(orderedAllocs), alloc)
      ensures orderedAllocs == if status == Ok && q.size > 0 then InsertSorted(old(orderedAllocs), alloc)
                               else old(orderedAllocs)
      ensures highWaterMark == if status == Ok && q.size > 0 && alloc.End() > old(highWaterMark) then alloc.End()
                               else old(highWaterMark)
    {
      if q.alignment > arenaAlignment {
        return Error, oldAlloc;
      }
      if q.size == 0 {
        return Ok, Recorded(q, 0);
      }
      var offset := FindOffset(orderedAllocs, q);
      alloc := Recorded(q, offset);
      ChosenIsSound(orderedAllocs, highWaterMark, q);
      var allocs := Inserted(orderedAllocs, alloc);
      var high := if highWaterMark >= offset + q.size then highWaterMark else offset + q.size;
      highWaterMark, orderedAllocs := high, allocs;
      return Ok, alloc;
    }

    /** Erases the entries of the record's tensor. */
    method Deallocate(alloc: Alloc) returns (status: Status)
      requires Valid()
      modifies this`orderedAllocs
      ensures Valid()
      ensures orderedAllocs ==
                if alloc.size == 0 then old(orderedAllocs) else RemoveTensor(old(orderedAllocs), alloc.tensor)
      ensures status == if alloc.size == 0 || Occurrences(old(orderedAllocs), alloc.tensor) <= 1 then Ok else Error
    {
      if alloc.size == 0 {
        return Ok;
      }
      RemoveTensorIsSound(orderedAllocs, highWaterMark, alloc.tensor);
      var erased;
      orderedAllocs, erased := Erased(orderedAllocs, alloc.tensor);
      return if erased <= 1 then Ok else Error;
    }

    /** A buffer for `required` bytes with the old one's bytes, as many as both can hold, from `newStart` on. */
    method Enlarged(required: nat, newStart: nat) returns (newBuffer: array<byte>)
      requires Valid() && newStart + highWaterMark <= required
      ensures fresh(newBuffer) && newBuffer.Length == required
      ensures |CommittedBytes()| <= highWaterMark
      ensures newBuffer[newStart..newStart + |CommittedBytes()|] == CommittedBytes()
    {
      newBuffer := new byte[required];
      if highWaterMark > 0 && BufferSize() > 0 {
        var room, newRoom := BufferSize() - alignedStart, required - newStart;
        var amount := if room < newRoom then room else newRoom;
        forall k | 0 <= k < amount {
          newBuffer[newStart + k] := buffer[alignedStart + k];
        }
      }
    }

    /** The required size leaves room for the plan behind the aligned start, whose address is aligned. */
    lemma RoomForPlan(address: nat, start: int)
      requires arenaAlignment > 0 && start == AlignTo(arenaAlignment, address) - address
      ensures 0 <= start < arenaAlignment && start + highWaterMark <= RequiredBufferSize()
      ensures (address + start) % arenaAlignment == 0
    {
    }

    /** Moves to a new buffer of the required size. */
    method Grow(newAddress: nat)
      requires Valid()
      modifies this`buffer, this`address, this`alignedStart
      ensures buffer != null && fresh(buffer) && buffer.Length == RequiredBufferSize()
      ensures address == newAddress && alignedStart == AlignTo(arenaAlignment, address) - address
      ensures Holds(old(CommittedBytes()))
    {
      var newStart := AlignTo(arenaAlignment, newAddress) - newAddress;
      var newBuffer := Enlarged(RequiredBufferSize(), newStart);
      buffer, address, alignedStart := newBuffer, newAddress, newStart;
    }

    /** Makes the buffer large enough for the plan. `newAddress` is what the heap would return for a
        new buffer. */
    method Commit(newAddress: nat) returns (status: Status)
      requires Valid()
      modifies this`committed, this`buffer, this`address, this`alignedStart, this`committedHigh
      ensures Valid() && status == Ok && committed
      ensures buffer != null && committedHigh == highWaterMark
      ensures buffer == old(buffer) || fresh(buffer)
      ensures alignedStart + highWaterMark <= buffer.Length
      ensures BasePointer() % arenaAlignment == 0
      ensures old(BufferSize()) >= RequiredBufferSize() ==>
                buffer == old(buffer) && BasePointer() == old(BasePointer())
      ensures old(BufferSize()) < RequiredBufferSize() ==>
                buffer.Length == RequiredBufferSize() && address == newAddress
      ensures Holds(old(CommittedBytes()))
    {
      HoldsItsBytes();
      if RequiredBufferSize() > BufferSize() {
        Grow(newAddress);
      }
      RoomForPlan(address, alignedStart);
      committed, committedHigh := true, highWaterMark;
      status := if buffer != null then Ok else Error;
    }

    /** The address of a planned range; zero-sized records resolve to null (0 here). */
    method ResolveAlloc(alloc: Alloc) returns (status: Status, pointer: nat)
      requires Valid()
      ensures status == (if committed && BufferSize() >= alloc.End() then Ok else Error)
      ensures status == Ok ==> pointer == if alloc.size == 0 then 0 else address + alignedStart + alloc.offset
    {
      if !committed || BufferSize() < alloc.offset + alloc.size {
        return Error, 0;
      }
      if alloc.size == 0 {
        return Ok, 0;
      }
      return Ok, BasePointer() + alloc.offset;
    }

    method ClearPlan() returns (status: Status)
      requires Valid()
      modifies this`committed, this`highWaterMark, this`orderedAllocs, this`committedHigh
      ensures Valid() && status == Ok
      ensures orderedAllocs == [] && highWaterMark == 0 && !committed
    {
      committed, highWaterMark, orderedAllocs, committedHigh := false, 0, [], 0;
      return Ok;
    }

    method ReleaseBuffer() returns (status: Status)
      requires Valid()
      modifies this`committed, this`buffer, this`address, this`alignedStart, this`committedHigh
      ensures Valid() && status == Ok
      ensures buffer == null && !committed
    {
      committed, buffer, address, alignedStart, committedHigh := false, null, 0, 0, 0;
      return Ok;
    }
  }
}
