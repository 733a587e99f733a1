/** A string that lives inside its own struct while it is small, in a heap buffer when it is large,
    or that only views somebody else's bytes. */
module TString {
  import opened Basics

  const NUL_BYTE: byte := 0
  const SMALL_CAPACITY: nat := 22
  // The stored size shares its word with the two bits of the type.
  const SIZE_LIMIT: nat := 0x4000_0000_0000_0000
  // One more byte for the terminator, rounded up to a multiple of 16, still fits in `size_t`.
  const RESERVE_LIMIT: nat := SIZE_MAX - 16

  function Align16(i: nat): nat { (i + 15) / 16 * 16 }

  /** The capacity of a heap buffer: one less than a multiple of 16, for the terminator. */
  lemma CapacityShape(i: nat)
    ensures Align16(i + 1) >= i + 1 && (Align16(i + 1) - 1) % 16 == 15 && Align16(i + 1) - 1 <= i + 15
    ensures i <= RESERVE_LIMIT ==> Align16(i + 1) - 1 <= RESERVE_LIMIT
  {
  }

  lemma SliceOfTake(s: seq<byte>, n: nat, lo: nat, hi: nat)
    requires lo <= hi <= n <= |s|
    ensures s[..n][lo..hi] == s[lo..hi]
  {
  }

  /** What is read from a place that has been terminated at `end`. */
  lemma ReadTerminated(storage: seq<byte>, size: nat, end: nat, at: nat, n: nat)
    requires at + n <= size <= |storage| && end < |storage|
    ensures var bytes := storage[end := NUL_BYTE][at..at + n];
            forall k :: 0 <= k < n ==> bytes[k] == if at + k == end then NUL_BYTE else storage[..size][at + k]
  {
  }

  /** Overwriting all of a byte string, or all behind its beginning. */
  lemma AllReplaced(s: seq<byte>, bytes: seq<byte>)
    requires |s| == |bytes|
    ensures s[..0] + bytes + s[0 + |bytes|..] == bytes
  {
  }

  lemma EndReplaced(s: seq<byte>, before: seq<byte>, bytes: seq<byte>)
    requires |s| == |before| + |bytes| && s[..|before|] == before
    ensures s[..|before|] + bytes + s[|before| + |bytes|..] == before + bytes
  {
  }

  lemma PartReplaced(before: seq<byte>, after: seq<byte>, at: nat, bytes: seq<byte>)
    requires |after| == |before| && at + |bytes| <= |before|
    requires forall k :: 0 <= k < |after| ==>
               after[k] == if at <= k < at + |bytes| then bytes[k - at] else before[k]
    ensures after == before[..at] + bytes + before[at + |bytes|..]
  {
  }

  lemma CopiedPart(before: seq<byte>, bytes: seq<byte>, viewed: bool, at: nat, n: nat)
    requires at + n <= |before| && |bytes| == n && (viewed || at >= n > 0)
    requires forall k :: 0 <= k < n ==>
               bytes[k] == if !viewed && at + k == n then NUL_BYTE else before[at + k]
    ensures bytes == if !viewed && at == n then [NUL_BYTE] + before[at + 1..at + n] else before[at..at + n]
  {
  }

  /** One of the union's shapes; assigning another one loses what the old one held. */
  datatype Union =
    | Small(size: nat, str: seq<byte>)
    | Large(size: nat, cap: nat, ptr: array<byte>)
    | View(size: nat, source: array<byte>, at: nat)

  /** The capacity policy for a string that has to be large. */
  function NewCapacity(currSize: nat, currCap: nat, newSize: nat): (cap: nat)
    requires SMALL_CAPACITY < newSize < SIZE_LIMIT && currCap <= RESERVE_LIMIT
    requires currCap == SMALL_CAPACITY || currCap == 0 || (currCap >= currSize && currCap % 16 == 15)
    ensures newSize <= cap <= RESERVE_LIMIT && cap % 16 == 15
    // It at least doubles when it grows, is halved when more than half of it is given back, and stays otherwise.
    ensures newSize > currCap ==> Max(newSize, 2 * currCap) <= cap < Max(newSize, 2 * currCap) + 16
    ensures newSize < currSize && newSize < currCap / 2 ==> currCap / 2 <= cap < currCap / 2 + 16
    ensures newSize <= currCap && !(newSize < currSize && newSize < currCap / 2) ==> cap == currCap
    ensures cap == currCap ==> currCap != SMALL_CAPACITY && currCap != 0
    ensures cap <= Max(currCap, 2 * newSize + 15)
  {
    var twice := if currCap >= SIZE_MAX / 2 then SIZE_MAX - 1 else currCap * 2;
    CapacityShape(currCap / 2);
    CapacityShape(newSize);
    CapacityShape(twice);
    if newSize < currSize && newSize < currCap / 2 then Align16(currCap / 2 + 1) - 1
    else if newSize > twice then Align16(newSize + 1) - 1
    else if newSize > currCap then Align16(twice + 1) - 1
    else currCap
  }

  class TString {
    var u: Union

    ghost predicate Valid()
      reads this, Bytes()
    {
      match u
      case Small(size, str) => size <= SMALL_CAPACITY && |str| == SMALL_CAPACITY + 1 && str[size] == NUL_BYTE
      case Large(size, cap, ptr) =>
        size < SIZE_LIMIT && cap <= RESERVE_LIMIT && size <= cap < ptr.Length && cap % 16 == 15 && ptr[size] == NUL_BYTE
      case View(size, source, at) => size < SIZE_LIMIT && at + size <= source.Length
    }

    // The heap bytes that the string's value depends on.
    ghost function Bytes(): set<object>
      reads this
    {
      match u
      case Small(_, _) => {}
      case Large(_, _, ptr) => {ptr}
      case View(_, source, _) => {source}
    }

    // The heap bytes that belong to the string.
    ghost function Owned(): set<object>
      reads this
    {
      if u.Large? then {u.ptr} else {}
    }

    /** The byte string that this string stands for. */
    function Contents(): (s: seq<byte>)
      requires Valid()
      reads this, Bytes()
      ensures |s| == u.size
    {
      match u
      case Small(size, str) => str[..size]
      case Large(size, _, ptr) => ptr[..size]
      case View(size, source, at) => source[at..at + size]
    }

    // All the bytes of an owned string's place, those behind its end included.
    ghost function Storage(): seq<byte>
      requires !u.View?
      reads this, Bytes()
    {
      if u.Small? then u.str else u.ptr[..]
    }

    function Size(): nat
      reads this
    {
      u.size
    }

    function Capacity(): nat
      reads this
    {
      match u
      case Small(_, _) => SMALL_CAPACITY
      case Large(_, cap, _) => cap
      case View(_, _, _) => 0
    }

    constructor ()
      ensures Valid() && Contents() == [] && !u.View? && !u.Large?
    {
      u := Small(0, seq(SMALL_CAPACITY + 1, _ => NUL_BYTE));
    }

    method Dealloc()
      requires Valid()
      modifies this
      ensures Valid()
      ensures if old(u).Large? then Contents() == [] && u.Small? else u == old(u)
    {
      if u.Large? {
        u := Small(0, seq(SMALL_CAPACITY + 1, _ => NUL_BYTE));
      }
    }

    /** Resizing to the new size leaves the bytes where they were: viewed bytes are not the string's,
        an inline string stays inline, a large one keeps its buffer. */
    predicate StaysInPlace(newSize: nat)
      requires Valid() && newSize < SIZE_LIMIT
      reads this, Bytes()
    {
      match u
      case Small(_, _) => newSize <= SMALL_CAPACITY
      case Large(size, cap, _) => newSize > SMALL_CAPACITY && NewCapacity(size, cap, newSize) == cap
      case View(_, _, _) => true
    }

    /** Changes the size, keeps the common prefix, and leaves the string owned and terminated. */
    method ResizeUninitialized(newSize: nat)
      requires Valid() && newSize < SIZE_LIMIT
      modifies this, Owned()
      ensures Valid() && !u.View? && Size() == newSize
      ensures Owned() <= old(Owned()) || fresh(Owned())
      ensures Contents()[..Min(newSize, |old(Contents())|)] == old(Contents())[..Min(newSize, |old(Contents())|)]
      ensures u.Large? <==> newSize > SMALL_CAPACITY
      ensures u.Large? ==> u.cap == NewCapacity(old(u).size, old(Capacity()), newSize)
      ensures u.Large? && old(u).Large? && u.cap == old(u).cap ==> u.ptr == old(u).ptr
      ensures !old(u.View?) && old(StaysInPlace(newSize)) ==> Storage() == old(Storage())[newSize := NUL_BYTE]
    {
      if newSize <= SMALL_CAPACITY {
        ToSmall(newSize);
      } else {
        ToLarge(newSize);
      }
    }

    method ToSmall(newSize: nat)
      requires Valid() && newSize <= SMALL_CAPACITY
      modifies this
      ensures Valid() && u.Small? && Size() == newSize
      ensures old(u).Small? ==> u.str == old(u).str[newSize := NUL_BYTE]
      ensures Contents()[..Min(newSize, |old(Contents())|)] == old(Contents())[..Min(newSize, |old(Contents())|)]
    {
      ghost var before := Contents();
      var copySize := Min(newSize, u.size);
      match u {
        case Small(_, str) =>
          u := Small(newSize, str[newSize := NUL_BYTE]);
        case Large(_, _, ptr) =>
          var rest: seq<byte> := *;
          rest := TakeExactly(rest, SMALL_CAPACITY + 1 - copySize);
          u := Small(newSize, (ptr[..copySize] + rest)[newSize := NUL_BYTE]);
        case View(_, source, at) =>
          var rest: seq<byte> := *;
          rest := TakeExactly(rest, SMALL_CAPACITY + 1 - copySize);
          u := Small(newSize, (source[at..at + copySize] + rest)[newSize := NUL_BYTE]);
      }
      assert u.str[..copySize] == before[..copySize];
      SliceOfTake(u.str, newSize, 0, copySize);
    }

    /** Any bytes, but `n` of them: stands for bytes that nobody has written. */
    static method TakeExactly(s: seq<byte>, n: nat) returns (r: seq<byte>)
      ensures |r| == n
    {
      r := if |s| >= n then s[..n] else s + seq(n - |s|, _ => NUL_BYTE);
    }

    method ToLarge(newSize: nat)
      requires Valid() && SMALL_CAPACITY < newSize < SIZE_LIMIT
      modifies this, Owned()
      ensures Valid() && u.Large? && Size() == newSize
      ensures u.cap == NewCapacity(old(u).size, old(Capacity()), newSize)
      ensures old(u.Large?) && u.cap == old(u).cap ==>
                u.ptr == old(u).ptr && u.ptr[..] == old(u.ptr[..])[newSize := NUL_BYTE]
      ensures Owned() <= old(Owned()) || fresh(Owned())
      ensures Contents()[..Min(newSize, |old(Contents())|)] == old(Contents())[..Min(newSize, |old(Contents())|)]
    {
      ghost var before := Contents();
      var copySize := Min(newSize, u.size);
      var newCap := NewCapacity(u.size, Capacity(), newSize);
      var ptr;
      if newCap == Capacity() {
        ptr := u.ptr;
      } else {
        ptr := NewBuffer(newCap, copySize);
      }
      ptr[newSize] := NUL_BYTE;
      u := Large(newSize, newCap, ptr);
      assert ptr[..newSize][..copySize] == ptr[..copySize] == before[..copySize];
    }

    /** `malloc` and `memcpy`, or `realloc`: a buffer for `cap` bytes and a terminator that starts
        with the first `copySize` bytes of the string. */
    method NewBuffer(cap: nat, copySize: nat) returns (ptr: array<byte>)
      requires Valid() && copySize <= u.size && copySize <= cap
      ensures fresh(ptr) && ptr.Length == cap + 1
      ensures ptr[..copySize] == Contents()[..copySize]
    {
      ptr := new byte[cap + 1];
      match u {
        case Small(_, str) =>
          forall k | 0 <= k < copySize { ptr[k] := str[k]; }
        case Large(_, _, oldPtr) =>
          forall k | 0 <= k < copySize { ptr[k] := oldPtr[k]; }
        case View(_, source, at) =>
          forall k | 0 <= k < copySize { ptr[k] := source[at + k]; }
      }
      assert forall k :: 0 <= k < copySize ==> ptr[k] == Contents()[k];
    }

    /** An owned string of the same bytes. */
    method GetMutableDataPointer()
      requires Valid()
      modifies this, Owned()
      ensures Valid() && !u.View? && Contents() == old(Contents())
      ensures if old(u).View? then u.Large? <==> Size() > SMALL_CAPACITY else u == old(u)
      ensures Owned() <= old(Owned()) || fresh(Owned())
    {
      if u.View? {
        ghost var before := Contents();
        ResizeUninitialized(u.size);
        assert Contents() == Contents()[..|before|] == before[..|before|] == before;
      }
    }

    /** Room for `newCap` bytes; neither size nor bytes change. */
    method Reserve(newCap: nat)
      requires Valid() && newCap <= RESERVE_LIMIT
      modifies this
      ensures Valid() && Contents() == old(Contents())
      ensures Owned() <= old(Owned()) || fresh(Owned())
      ensures if newCap <= SMALL_CAPACITY || (old(u).Large? && newCap <= old(Capacity())) then u == old(u)
              else u.Large? && u.cap == Align16(Max(newCap, old(Size())) + 1) - 1 >= newCap
    {
      if newCap <= SMALL_CAPACITY || (u.Large? && newCap <= u.cap) {
        return;
      }
      ghost var before := Contents();
      var cap := Align16(Max(newCap, u.size) + 1) - 1;
      CapacityShape(Max(newCap, u.size));
      var ptr := NewBuffer(cap, u.size);
      ptr[u.size] := NUL_BYTE;
      u := Large(u.size, cap, ptr);
      assert Contents() == before[..|before|] == before;
    }

    /** Changes the size; new bytes are `c`. */
    method Resize(newSize: nat, c: byte)
      requires Valid() && newSize < SIZE_LIMIT
      modifies this, Owned()
      ensures Valid() && !u.View? && Contents() == Resized(old(Contents()), newSize, c)
      ensures u.Large? <==> newSize > SMALL_CAPACITY
      ensures Owned() <= old(Owned()) || fresh(Owned())
    {
      ghost var before := Contents();
      var currSize := u.size;
      ResizeUninitialized(newSize);
      if newSize > currSize {
        assert Contents()[..currSize] == before[..currSize] == before;
        var padding := seq(newSize - currSize, _ => c);
        EndReplaced(Contents(), before, padding);
        Write(currSize, padding);
      }
    }

    /** Overwrites bytes inside the string. */
    method Write(at: nat, bytes: seq<byte>)
      requires Valid() && !u.View? && at + |bytes| <= Size()
      modifies this, Owned()
      ensures Valid() && Size() == old(Size()) && Owned() == old(Owned()) && !u.View? && u.Large? == old(u.Large?)
      ensures Contents() == old(Contents())[..at] + bytes + old(Contents())[at + |bytes|..]
    {
      ghost var before := Contents();
      if u.Small? {
        u := Small(u.size, u.str[..at] + bytes + u.str[at + |bytes|..]);
      } else {
        var ptr := u.ptr;
        forall k | 0 <= k < |bytes| {
          ptr[at + k] := bytes[k];
        }
      }
      PartReplaced(before, Contents(), at, bytes);
    }

    /** Views `source` without owning it; it may not be the string's own buffer, which is freed first. */
    method AssignView(source: array<byte>, at: nat, size: nat)
      requires Valid() && at + size <= source.Length && size < SIZE_LIMIT && source !in Owned()
      modifies this
      ensures Valid() && u == View(size, source, at) && Contents() == source[at..at + size]
    {
      Dealloc();
      u := View(size, source, at);
    }

    method AppendN(bytes: seq<byte>)
      requires Valid() && Size() + |bytes| < SIZE_LIMIT
      modifies this, Owned()
      ensures Valid() && Contents() == old(Contents()) + bytes
      ensures Owned() <= old(Owned()) || fresh(Owned())
      ensures if bytes == [] then u == old(u) else !u.View? && (u.Large? <==> Size() > SMALL_CAPACITY)
    {
      if bytes == [] {
        return;
      }
      ghost var before := Contents();
      var size := u.size;
      ResizeUninitialized(size + |bytes|);
      assert Contents()[..size] == before[..size] == before;
      EndReplaced(Contents(), before, bytes);
      Write(size, bytes);
    }

    /** Resizes, then reads `n` bytes through a pointer to index `at` that was taken before. They are
        the old ones, except for the byte where an owned string is terminated now. */
    method ResizeAndFetch(newSize: nat, at: nat, n: nat) returns (bytes: seq<byte>)
      requires Valid() && newSize < SIZE_LIMIT && at + n <= Size() && StaysInPlace(newSize)
      modifies this, Owned()
      ensures Valid() && !u.View? && Size() == newSize && (u.Large? <==> newSize > SMALL_CAPACITY)
      ensures Owned() <= old(Owned()) || fresh(Owned())
      ensures Contents()[..Min(newSize, |old(Contents())|)] == old(Contents())[..Min(newSize, |old(Contents())|)]
      ensures |bytes| == n
      ensures forall k :: 0 <= k < n ==>
                bytes[k] == if !old(u.View?) && at + k == newSize then NUL_BYTE else old(Contents())[at + k]
    {
      var was := u;
      ghost var before, storage := Contents(), if u.View? then [] else Storage();
      ResizeUninitialized(newSize);
      match was {
        case View(_, source, start) =>
          bytes := source[start + at..start + at + n];
          assert forall k :: 0 <= k < n ==> bytes[k] == before[at + k];
        case Small(size, _) =>
          ReadTerminated(storage, size, newSize, at, n);
          bytes := u.str[at..at + n];
        case Large(size, _, ptr) =>
          ReadTerminated(storage, size, newSize, at, n);
          bytes := ptr[at..at + n];
      }
    }

    /** Appends a part of the string itself. */
    method AppendWithin(at: nat, n: nat)
      requires Valid() && at + n <= Size() && Size() + n < SIZE_LIMIT
      requires n == 0 || StaysInPlace(Size() + n)
      modifies this, Owned()
      ensures Valid() && Contents() == old(Contents()) + old(Contents())[at..at + n]
      ensures Owned() <= old(Owned()) || fresh(Owned())
      ensures if n == 0 then u == old(u) else !u.View? && (u.Large? <==> Size() > SMALL_CAPACITY)
    {
      ghost var before := Contents();
      if n == 0 {
        assert before + before[at..at] == before;
        return;
      }
      var size := u.size;
      var bytes := ResizeAndFetch(size + n, at, n);
      assert bytes == before[at..at + n];
      assert Contents()[..size] == before[..size] == before;
      EndReplaced(Contents(), before, bytes);
      Write(size, bytes);
    }

    /** Appends another string's bytes, or the string's own. */
    method Append(src: TString)
      requires Valid() && src.Valid() && Size() + src.Size() < SIZE_LIMIT
      requires if src == this then Size() == 0 || StaysInPlace(Size() + Size()) else src.Bytes() !! Owned()
      modifies this, Owned()
      ensures Valid() && Contents() == old(Contents()) + old(src.Contents())
      ensures Owned() <= old(Owned()) || fresh(Owned())
      ensures if old(src.Size()) == 0 then u == old(u) else !u.View? && (u.Large? <==> Size() > SMALL_CAPACITY)
      ensures src != this ==> src.Valid() && src.u == old(src.u) && src.Contents() == old(src.Contents())
    {
      if src == this {
        AppendWithin(0, u.size);
      } else {
        AppendN(src.Contents());
      }
    }

    /** Copies a part of the string to its front. The code resizes first, which terminates the string
        behind its new end; where that is the first of the bytes to copy, it is lost. Parts that
        begin before the new end overlap in `memcpy`, unless they are viewed. */
    method CopyWithin(at: nat, n: nat)
      requires Valid() && at + n <= Size()
      requires n == 0 || u.View? || (at >= n && StaysInPlace(n))
      modifies this, Owned()
      ensures Valid() && !u.View? && (u.Large? <==> n > SMALL_CAPACITY)
      ensures Owned() <= old(Owned()) || fresh(Owned())
      ensures Contents() == if !old(u.View?) && at == n > 0 then [NUL_BYTE] + old(Contents())[at + 1..at + n]
                            else old(Contents())[at..at + n]
    {
      if n == 0 {
        ResizeUninitialized(0);
        return;
      }
      ghost var before, viewed := Contents(), u.View?;
      var bytes := ResizeAndFetch(n, at, n);
      CopiedPart(before, bytes, viewed, at, n);
      AllReplaced(Contents(), bytes);
      Write(0, bytes);
    }

    method Copy(bytes: seq<byte>)
      requires Valid() && |bytes| < SIZE_LIMIT
      modifies this, Owned()
      ensures Valid() && Contents() == bytes && !u.View? && (u.Large? <==> |bytes| > SMALL_CAPACITY)
      ensures Owned() <= old(Owned()) || fresh(Owned())
    {
      ResizeUninitialized(|bytes|);
      if bytes != [] {
        AllReplaced(Contents(), bytes);
        Write(0, bytes);
      }
    }

    /** A string of the same bytes; views stay views, and heap bytes are never shared. */
    method Assign(src: TString)
      requires Valid() && src.Valid()
      requires src == this || src.Bytes() !! Owned()
      modifies this
      ensures Valid() && src.Valid() && src.u == old(src.u) && src.Contents() == old(src.Contents())
      ensures Contents() == old(src.Contents())
      ensures src != this ==> fresh(Owned())
      ensures src == this ==> u == old(u)
      ensures src != this && src.u.Large? ==> !u.View? && (u.Large? <==> Size() > SMALL_CAPACITY)
      ensures !src.u.Large? ==> u == src.u
    {
      if src == this {
        return;
      }
      Dealloc();
      if src.u.Large? {
        Copy(src.Contents());
      } else {
        u := src.u;
      }
    }

    /** Takes over the bytes of `src`; a heap buffer changes hands, and `src` is left empty then. */
    method Move(src: TString)
      requires Valid() && src.Valid()
      requires src == this || src.Bytes() !! Owned()
      modifies this, src
      ensures Valid() && src.Valid()
      ensures Contents() == old(src.Contents())
      ensures u == old(src.u)
      ensures src != this ==> if old(src.u).Large? then src.Contents() == [] && src.u.Small? else src.u == old(src.u)
    {
      if src == this {
        return;
      }
      Dealloc();
      var moved := src.u;
      u := moved;
      if moved.Large? {
        src.u := Small(0, seq(SMALL_CAPACITY + 1, _ => NUL_BYTE));
      }
    }
  }
}
