/** Sums over the elements of a sequence. */
module Sums {

  function Total<T>(s: seq<T>, f: T -> nat): nat {
    if s == [] then 0 else Total(s[..|s| - 1], f) + f(s[|s| - 1])
  }

  /** Replacing one element. */
  lemma {:induction false} TotalAfter<T>(s: seq<T>, i: nat, x: T, f: T -> nat)
    requires i < |s|
    ensures Total(s[i := x], f) + f(s[i]) == Total(s, f) + f(x)
  {
    var n, after := |s| - 1, s[i := x];
    if i < n {
      TotalAfter(s[..n], i, x, f);
      assert after[..n] == s[..n][i := x];
    } else {
      assert after[..n] == s[..n];
    }
  }

  lemma TotalAppend<T>(s: seq<T>, x: T, f: T -> nat)
    ensures Total(s + [x], f) == Total(s, f) + f(x)
  {
    assert (s + [x])[..|s|] == s;
  }

  lemma {:induction false} TotalZero<T>(s: seq<T>, f: T -> nat)
    ensures Total(s, f) == 0 <==> forall i :: 0 <= i < |s| ==> f(s[i]) == 0
  {
    if s != [] {
      TotalZero(s[..|s| - 1], f);
    }
  }
}
