/**
  Filtering a slice, by definition and in place; prefixes and reversal.
  */
module Filters {

  function Filter<T>(s: seq<T>, keep: T -> bool): (r: seq<T>)
    ensures |r| <= |s|
  {
    if s == [] then []
    else
      var rest := Filter(s[..|s| - 1], keep);
      if keep(s[|s| - 1]) then rest + [s[|s| - 1]] else rest
  }

  lemma {:induction false} FilterConcat<T>(a: seq<T>, b: seq<T>, keep: T -> bool)
    ensures Filter(a + b, keep) == Filter(a, keep) + Filter(b, keep)
  {
    if b == [] {
      assert a + b == a;
    } else {
      assert (a + b)[..|a + b| - 1] == a + b[..|b| - 1];
      FilterConcat(a, b[..|b| - 1], keep);
    }
  }

  lemma {:induction false} FilterElements<T>(s: seq<T>, keep: T -> bool)
    ensures forall x :: x in Filter(s, keep) <==> x in s && keep(x)
  {
    if s != [] {
      FilterElements(s[..|s| - 1], keep);
      assert s == s[..|s| - 1] + [s[|s| - 1]];
    }
  }

  /** Two sequences with what to keep at the same positions: what is kept stands at the same positions too. */
  lemma {:induction false} FilterAligned<T>(a: seq<T>, b: seq<T>, keep: T -> bool, i: nat) returns (j: nat)
    requires |a| == |b| && forall k :: 0 <= k < |a| ==> keep(a[k]) == keep(b[k])
    requires i < |a| && keep(a[i])
    ensures j < |Filter(a, keep)| && j < |Filter(b, keep)|
    ensures Filter(a, keep)[j] == a[i] && Filter(b, keep)[j] == b[i]
  {
    var n := |a| - 1;
    if i < n {
      j := FilterAligned(a[..n], b[..n], keep, i);
    } else {
      SameCount(a[..n], b[..n], keep);
      j := |Filter(a[..n], keep)|;
    }
  }

  lemma {:induction false} SameCount<T>(a: seq<T>, b: seq<T>, keep: T -> bool)
    requires |a| == |b| && forall k :: 0 <= k < |a| ==> keep(a[k]) == keep(b[k])
    ensures |Filter(a, keep)| == |Filter(b, keep)|
  {
    if a != [] {
      SameCount(a[..|a| - 1], b[..|a| - 1], keep);
    }
  }

  function FirstN<T>(s: seq<T>, n: nat): seq<T> {
    if |s| <= n then s else s[..n]
  }

  function Reverse<T>(s: seq<T>): (r: seq<T>)
    ensures |r| == |s| && forall i :: 0 <= i < |s| ==> r[i] == s[|s| - 1 - i]
  {
    if s == [] then [] else [s[|s| - 1]] + Reverse(s[..|s| - 1])
  }

  /**
    The idiom `out := s[:0]; for x in s { if keep(x) { out = append(out, x) } }`: the result
    is written over the slice that is being read.
    */
  method FilterInPlace<T>(a: array<T>, keep: T -> bool) returns (n: nat)
    modifies a
    ensures n <= a.Length && a[..n] == Filter(old(a[..]), keep)
  {
    n := 0;
    for i := 0 to a.Length
      invariant n <= i
      invariant a[..n] == Filter(old(a[..])[..i], keep)
      invariant a[i..] == old(a[..])[i..]
    {
      assert a[i] == a[i..][0] == old(a[..])[i];
      assert old(a[..])[..i + 1][..i] == old(a[..])[..i];
      if keep(a[i]) {
        a[n] := a[i];
        n := n + 1;
      }
      assert a[i + 1..] == old(a[..])[i..][1..];
    }
    assert old(a[..])[..a.Length] == old(a[..]);
  }
}
