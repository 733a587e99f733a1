/** Names that several of the modelled files share. */
module Basics {

  newtype byte = x: int | 0 <= x < 256

  // The string terminator, which reading a string at its end yields.
  const NUL: char := '\0'

  // The largest `size_t` and the largest `int64_t` of a 64-bit platform. The gap search of the
  // arenas uses the former as "no gap chosen yet".
  const SIZE_MAX: nat := 0xFFFF_FFFF_FFFF_FFFF
  const INT64_MAX: int := 0x7FFF_FFFF_FFFF_FFFF

  function Max(a: nat, b: nat): nat { if a >= b then a else b }

  function Min(a: int, b: int): int { if a <= b then a else b }

  function Elements<T>(s: seq<T>): set<T> { set x | x in s }

  /** Ascending, without repeats. */
  predicate Sorted(s: seq<int>) {
    forall i, j :: 0 <= i < j < |s| ==> s[i] < s[j]
  }

  /** `resize` keeps what fits and fills up what is missing. */
  function Resized<T>(s: seq<T>, n: nat, fill: T): (r: seq<T>)
    ensures |r| == n
    ensures forall i :: 0 <= i < n ==> r[i] == if i < |s| then s[i] else fill
  {
    if n <= |s| then s[..n] else s + seq(n - |s|, _ => fill)
  }
}
