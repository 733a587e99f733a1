/** Which gap the search takes: the one with the least room to spare, as long as entries start at
    multiples of the requested alignment, and not always otherwise. */
module BestFit {
  import opened Basics
  import opened Modular
  import opened MemoryArena

  /** Where the bytes in use at the request's nodes end, over a list of entries. */
  function InUseEnd(entries: seq<Alloc>, q: Request): nat {
    if entries == [] then 0
    else
      var before, e := InUseEnd(entries[..|entries| - 1], q), entries[|entries| - 1];
      if e.InUse(q.first, q.last) && e.End() > before then e.End() else before
  }

  /** The first aligned place after the bytes in use that come before entry `k`. */
  function GapStart(entries: seq<Alloc>, q: Request, k: nat): nat
    requires q.alignment > 0 && k < |entries|
  {
    AlignTo(q.alignment, InUseEnd(entries[..k], q))
  }

  /** The gap in front of entry `k` takes the request. */
  predicate GapTakes(entries: seq<Alloc>, q: Request, k: nat)
    requires q.alignment > 0
  {
    k < |entries| && entries[k].InUse(q.first, q.last) && GapStart(entries, q, k) + q.size <= entries[k].offset
  }

  /** Its aligned length. */
  function GapLength(entries: seq<Alloc>, q: Request, k: nat): nat
    requires q.alignment > 0 && GapTakes(entries, q, k)
  {
    entries[k].offset - GapStart(entries, q, k)
  }

  /** The request goes to gap `k`, and no gap that takes it is shorter. */
  ghost predicate FitsBestAt(entries: seq<Alloc>, q: Request, at: nat, k: nat)
    requires q.alignment > 0
  {
    && GapTakes(entries, q, k) && at == GapStart(entries, q, k)
    && forall j: nat :: GapTakes(entries, q, j) ==> GapLength(entries, q, k) <= GapLength(entries, q, j)
  }

  /** If any gap takes the request, it goes to a shortest one. */
  ghost predicate TakesBestFit(entries: seq<Alloc>, q: Request)
    requires q.alignment > 0
  {
    (exists k: nat :: GapTakes(entries, q, k)) ==> exists k: nat :: FitsBestAt(entries, q, ChooseOffset(entries, q), k)
  }

  // ----- Aligned plans ---------------------------------------------------------------------------

  lemma {:induction false} ScanReaches(entries: seq<Alloc>, q: Request)
    requires q.alignment > 0
    ensures ScanGaps(entries, q).current == InUseEnd(entries, q)
  {
    if entries != [] {
      ScanReaches(entries[..|entries| - 1], q);
    }
  }

  /** The state of the search after some entries: nothing found and nothing to find, or a shortest
      gap, whose recorded length is too long by less than the alignment. */
  ghost predicate Found(entries: seq<Alloc>, q: Request, s: Search, k: nat)
    requires q.alignment > 0
  {
    && FitsBestAt(entries, q, s.bestOffset, k)
    && GapLength(entries, q, k) <= s.bestFit < GapLength(entries, q, k) + q.alignment
  }

  ghost predicate Progress(entries: seq<Alloc>, q: Request, s: Search)
    requires q.alignment > 0
  {
    if s.bestOffset == SIZE_MAX then s.bestFit == SIZE_MAX && forall j: nat :: !GapTakes(entries, q, j)
    else exists k: nat :: Found(entries, q, s, k)
  }

  lemma GapInPrefix(entries: seq<Alloc>, q: Request, n: nat, j: nat)
    requires q.alignment > 0 && j < n <= |entries|
    ensures GapTakes(entries[..n], q, j) <==> GapTakes(entries, q, j)
    ensures GapTakes(entries, q, j) ==> GapLength(entries[..n], q, j) == GapLength(entries, q, j)
    ensures GapStart(entries[..n], q, j) == GapStart(entries, q, j)
  {
    assert entries[..n][..j] == entries[..j];
  }

  /** Aligned gaps in aligned plans differ by multiples of the alignment, if they differ. */
  lemma LengthsAreMultiples(entries: seq<Alloc>, q: Request, j: nat, k: nat)
    requires q.alignment > 0 && AlignedPlan(entries, q.alignment) && GapTakes(entries, q, j) && GapTakes(entries, q, k)
    ensures GapLength(entries, q, j) < GapLength(entries, q, k) + q.alignment ==>
              GapLength(entries, q, j) <= GapLength(entries, q, k)
  {
    assert entries[j] in entries && entries[k] in entries;
    MultipleDifference(entries[j].offset, GapStart(entries, q, j), q.alignment);
    MultipleDifference(entries[k].offset, GapStart(entries, q, k), q.alignment);
    if GapLength(entries, q, k) < GapLength(entries, q, j) {
      NextMultiple(GapLength(entries, q, k), GapLength(entries, q, j), q.alignment);
    }
  }

  lemma MultipleDifference(x: int, y: int, n: int)
    requires n > 0 && x % n == 0 && y % n == 0
    ensures (x - y) % n == 0
  {
    AddMultiple(x - y, y, n);
  }

  ghost predicate Suits(entries: seq<Alloc>, alignment: nat)
    requires alignment > 0
  {
    alignment <= 2 || AlignedPlan(entries, alignment)
  }

  /** One entry more that is not taken: the best gap stays the best. */
  lemma StaysBest(entries: seq<Alloc>, q: Request, s: Search, k: nat)
    requires q.alignment > 0 && entries != [] && s.bestOffset != SIZE_MAX
    requires var n := |entries| - 1;
             && Found(entries[..n], q, s, k)
             && (GapTakes(entries, q, n) ==> GapLength(entries, q, n) >= s.bestFit)
    ensures Found(entries, q, s, k)
  {
    var n := |entries| - 1;
    GapInPrefix(entries, q, n, k);
    forall j: nat | GapTakes(entries, q, j) ensures GapLength(entries, q, k) <= GapLength(entries, q, j) {
      if j < n {
        GapInPrefix(entries, q, n, j);
      }
    }
  }

  /** One entry more whose gap is taken: it is no longer than the best so far. */
  lemma BecomesBest(entries: seq<Alloc>, q: Request, s: Search)
    requires q.alignment > 0 && entries != [] && Suits(entries, q.alignment)
    requires var n := |entries| - 1;
             Progress(entries[..n], q, s) && GapTakes(entries, q, n) && GapLength(entries, q, n) < s.bestFit
    ensures FitsBestAt(entries, q, GapStart(entries, q, |entries| - 1), |entries| - 1)
  {
    var n := |entries| - 1;
    forall j: nat | GapTakes(entries, q, j) ensures GapLength(entries, q, n) <= GapLength(entries, q, j) {
      if j < n {
        GapInPrefix(entries, q, n, j);
        var k: nat :| Found(entries[..n], q, s, k);
        GapInPrefix(entries, q, n, k);
        if q.alignment > 2 {
          LengthsAreMultiples(entries, q, n, k);
        }
      }
    }
  }

  lemma {:induction false} SearchProgress(entries: seq<Alloc>, q: Request)
    requires q.alignment > 0 && Suits(entries, q.alignment)
    requires forall i :: 0 <= i < |entries| ==> entries[i].End() < SIZE_MAX
    ensures Progress(entries, q, ScanGaps(entries, q))
  {
    if entries != [] {
      var n := |entries| - 1;
      var before, after := ScanGaps(entries[..n], q), ScanGaps(entries, q);
      SearchProgress(entries[..n], q);
      ScanReaches(entries[..n], q);
      if GapTakes(entries, q, n) && GapLength(entries, q, n) < before.bestFit {
        BecomesBest(entries, q, before);
        assert Found(entries, q, after, n);
      } else if before.bestOffset != SIZE_MAX {
        var k: nat :| Found(entries[..n], q, before, k);
        StaysBest(entries, q, before, k);
        assert Found(entries, q, after, k);
      } else {
        forall j: nat ensures !GapTakes(entries, q, j) {
          if j < n {
            GapInPrefix(entries, q, n, j);
          }
        }
      }
    }
  }

  /** In a plan whose entries start at multiples of the request's alignment, the search is best fit;
      and in every plan when the alignment is at most two. */
  lemma SuitedPlansFitBest(entries: seq<Alloc>, q: Request)
    requires q.alignment > 0 && Suits(entries, q.alignment)
    requires forall i :: 0 <= i < |entries| ==> entries[i].End() < SIZE_MAX
    ensures TakesBestFit(entries, q)
  {
    SearchProgress(entries, q);
    if ScanGaps(entries, q).bestOffset != SIZE_MAX {
      var k: nat :| Found(entries, q, ScanGaps(entries, q), k);
      assert FitsBestAt(entries, q, ChooseOffset(entries, q), k);
    }
  }

  // ----- Plans of another alignment ------------------------------------------------------------------

  function Used(offset: nat, size: nat): Alloc { Alloc(offset, size, 0, 0, 0) }

  /** Three entries in use, with a gap before the second and before the third. */
  function Three(c: nat, o1: nat, s1: nat, o2: nat, s2: nat): seq<Alloc> {
    [Used(0, c), Used(o1, s1), Used(o2, s2)]
  }

  lemma ThreeEnds(c: nat, o1: nat, s1: nat, o2: nat, s2: nat, q: Request)
    requires q.first == q.last == 0 && c <= o1
    ensures var es := Three(c, o1, s1, o2, s2); InUseEnd(es[..0], q) == 0 && InUseEnd(es[..1], q) == c
    ensures InUseEnd(Three(c, o1, s1, o2, s2)[..2], q) == o1 + s1
  {
    var es := Three(c, o1, s1, o2, s2);
    assert es[..1][..0] == es[..0] && es[..2][..1] == es[..1];
  }

  /** The second gap is the longer one, but not as long as the first one looks from where the bytes
      before it end. */
  ghost predicate Deceives(c: nat, o1: nat, s1: nat, o2: nat, q: Request)
    requires q.alignment > 0
  {
    var x, y := AlignTo(q.alignment, c), AlignTo(q.alignment, o1 + s1);
    && q.first == q.last == 0 && q.size > 0 && x + q.size <= o1 && y + q.size <= o2
    && o1 - x < o2 - y < o1 - c
  }

  /** Then the search takes the second gap. */
  lemma Deceived(c: nat, o1: nat, s1: nat, o2: nat, s2: nat, q: Request)
    requires q.alignment > 0 && Deceives(c, o1, s1, o2, q) && o2 + s2 < SIZE_MAX
    ensures ChooseOffset(Three(c, o1, s1, o2, s2), q) == AlignTo(q.alignment, o1 + s1)
    ensures !TakesBestFit(Three(c, o1, s1, o2, s2), q)
  {
    var es := Three(c, o1, s1, o2, s2);
    ThreeEnds(c, o1, s1, o2, s2, q);
    ThreeScan(c, o1, s1, o2, s2, q);
    assert GapTakes(es, q, 1) && GapTakes(es, q, 2) && !GapTakes(es, q, 0);
    forall k: nat ensures !FitsBestAt(es, q, ChooseOffset(es, q), k) {
      assert k == 1 ==> GapStart(es, q, 1) < GapStart(es, q, 2);
    }
  }

  lemma ThreeScan(c: nat, o1: nat, s1: nat, o2: nat, s2: nat, q: Request)
    requires q.alignment > 0 && Deceives(c, o1, s1, o2, q) && o2 + s2 < SIZE_MAX
    ensures ScanGaps(Three(c, o1, s1, o2, s2), q).bestOffset == AlignTo(q.alignment, o1 + s1)
  {
    var es := Three(c, o1, s1, o2, s2);
    assert es[..2][..1] == es[..1] && es[..1][..0] == [];
    assert ScanGaps(es[..1], q) == Search(c, SIZE_MAX, SIZE_MAX);
    assert ScanGaps(es[..2], q) == Search(o1 + s1, AlignTo(q.alignment, c), o1 - c);
  }

  lemma ThreeAreSound(c: nat, o1: nat, s1: nat, o2: nat, s2: nat, a: nat)
    requires a > 0 && 0 < c <= o1 && s1 > 0 && o1 + s1 <= o2 && s2 > 0 && o1 % a == 0 && o2 % a == 0
    ensures SoundPlan(Three(c, o1, s1, o2, s2), o2 + s2) && AlignedPlan(Three(c, o1, s1, o2, s2), a)
  {
    MultipleMod(0, a);
  }

  /** Entries at 0, 128 and 296, of 8 bytes each, and a request of 64 bytes at alignment 64: it goes
      to 192, although it fits exactly at 64. */
  lemma MixedAlignmentsMayNotFitBest()
    ensures var es, q := Three(8, 128, 8, 296, 8), Request(64, 64, 1, 0, 0);
            SoundPlan(es, 304) && AlignedPlan(es, 8) && ChooseOffset(es, q) == 192 && !TakesBestFit(es, q)
  {
    AlignsUp(8, 64, 1);
    AlignsUp(136, 64, 3);
    ThreeAreSound(8, 128, 8, 296, 8, 8);
    Deceived(8, 128, 8, 296, 8, Request(64, 64, 1, 0, 0));
  }

  /** Best fit in one plan whose entries start at multiples of `a`. */
  ghost predicate FitsBestIn(entries: seq<Alloc>, high: nat, q: Request, a: nat, r: nat)
    requires a > 0 && r > 0
  {
    q.alignment == r && high < SIZE_MAX && SoundPlan(entries, high) && AlignedPlan(entries, a) ==>
      TakesBestFit(entries, q)
  }

  lemma MultipleSum(k: nat, n: nat, x: nat, a: nat)
    requires a > 0 && n % a == 0 && x % a == 0
    ensures (k * n + x) % a == 0
  {
    MultipleMod(k * (n / a), a);
    assert (k * (n / a)) * a == k * n;
    AddMultiple(k * n, x, a);
  }

  /** Offsets of the shape below deceive a request of one byte. */
  lemma OffsetsDeceive(r: nat, o1: nat, o2: nat, e: nat)
    requires r > 2 && 1 <= e <= r - 2 && o1 > r && o2 > 2 * o1 + e && (o2 - o1 - e) % r == 0
    ensures var s1 := o2 - (o1 - r + e) - o1;
            s1 > 0 && o1 + s1 < o2 && Deceives(1, o1, s1, o2, Request(r, 1, 1, 0, 0))
  {
    AlignsUp(1, r, 1);
    AddMultiple(o2 - o1 - e, r, r);
  }

  ghost predicate CommonMultiple(n: nat, a: nat, r: nat)
    requires a > 0 && r > 0
  {
    n % a == 0 && n % r == 0 && n >= r && n >= 3 * a && 8 * n < SIZE_MAX
  }

  /** A plan at multiples of `a`, and a request of one byte at alignment `r` that is deceived. */
  ghost predicate Witness(a: nat, r: nat, o1: nat, s1: nat, o2: nat)
    requires a > 0 && r > 0
  {
    && o1 % a == 0 && o2 % a == 0 && o1 >= 1 && s1 > 0 && o1 + s1 <= o2 && o2 + 1 < SIZE_MAX
    && Deceives(1, o1, s1, o2, Request(r, 1, 1, 0, 0))
  }

  lemma SmallRest(a: nat, r: nat, n: nat) returns (o1: nat, s1: nat, o2: nat)
    requires a > 0 && r > 2 && CommonMultiple(n, a, r) && 1 <= a % r <= r - 2
    ensures Witness(a, r, o1, s1, o2)
  {
    var d := a % r;
    o1, o2 := 2 * n, 5 * n + a;
    s1 := o2 - (o1 - r + d) - o1;
    MultipleSum(2, n, 0, a);
    MultipleMod(1, a);
    MultipleSum(5, n, a, a);
    RestMultiples(a, r);
    MultipleSum(3, n, a - d, r);
    assert o2 - o1 - d == 3 * n + (a - d);
    OffsetsDeceive(r, o1, o2, d);
  }

  lemma LargestRest(a: nat, r: nat, n: nat) returns (o1: nat, s1: nat, o2: nat)
    requires a > 0 && r > 2 && CommonMultiple(n, a, r) && a % r == r - 1
    ensures Witness(a, r, o1, s1, o2)
  {
    o1, o2 := 2 * n + a, 6 * n;
    s1 := o2 - (o1 - r + 1) - o1;
    MultipleMod(1, a);
    MultipleSum(2, n, a, a);
    MultipleSum(6, n, 0, a);
    RestMultiples(a, r);
    MultipleSum(4, n, 0, r);
    MultipleDifference(4 * n, a + 1, r);
    assert o2 - o1 - 1 == 4 * n - (a + 1);
    OffsetsDeceive(r, o1, o2, 1);
  }

  lemma Deception(a: nat, r: nat) returns (o1: nat, s1: nat, o2: nat)
    requires a > 0 && r > 2 && a % r != 0 && 8 * (a * r) < SIZE_MAX
    ensures Witness(a, r, o1, s1, o2)
  {
    MulAtLeast(a, r);
    MulMono(3, r, a);
    MultipleMod(a, r);
    MultipleMod(r, a);
    if a % r <= r - 2 {
      o1, s1, o2 := SmallRest(a, r, a * r);
    } else {
      o1, s1, o2 := LargestRest(a, r, a * r);
    }
  }

  lemma RestMultiples(a: nat, r: nat)
    requires r > 0
    ensures a >= a % r && (a - a % r) % r == 0
    ensures a % r == r - 1 ==> (a + 1) % r == 0
  {
    var k := a / r;
    assert a == k * r + a % r;
    MultipleMod(k, r);
    MultipleMod(k + 1, r);
    assert (k + 1) * r == k * r + r;
  }

  lemma AlignsUp(x: nat, r: nat, q: nat)
    requires r > 0 && (q - 1) * r < x <= q * r
    ensures AlignTo(r, x) == q * r
  {
    MultipleMod(q, r);
    AlignToIsLeast(r, x, q * r);
    if AlignTo(r, x) < q * r {
      NextMultiple(AlignTo(r, x), q * r, r);
    }
  }

  /** Over all plans whose entries start at multiples of `a`, requests of alignment `r` get the best
      fit exactly when `r` divides `a` or is at most two. (Plans that show the failure must fit the
      address space.) */
  lemma BestFitIff(a: nat, r: nat)
    requires a > 0 && r > 0 && 8 * (a * r) < SIZE_MAX
    ensures (forall entries, high, q :: FitsBestIn(entries, high, q, a, r)) <==> a % r == 0 || r <= 2
  {
    if a % r == 0 || r <= 2 {
      forall entries: seq<Alloc>, high: nat, q: Request ensures FitsBestIn(entries, high, q, a, r) {
        DivisorSuits(entries, high, q, a, r);
      }
    } else {
      var o1, s1, o2 := Deception(a, r);
      var q := Request(r, 1, 1, 0, 0);
      Deceived(1, o1, s1, o2, 1, q);
      ThreeAreSound(1, o1, s1, o2, 1, a);
      assert !FitsBestIn(Three(1, o1, s1, o2, 1), o2 + 1, q, a, r);
    }
  }

  lemma DivisorSuits(entries: seq<Alloc>, high: nat, q: Request, a: nat, r: nat)
    requires a > 0 && r > 0 && (a % r == 0 || r <= 2)
    ensures FitsBestIn(entries, high, q, a, r)
  {
    if q.alignment == r && high < SIZE_MAX && SoundPlan(entries, high) && AlignedPlan(entries, a) {
      if a % r == 0 {
        forall e | e in entries ensures e.offset % r == 0 {
          DividesTransitive(e.offset, a, r);
        }
      }
      SuitedPlansFitBest(entries, q);
    }
  }
}
