/**
  Sequences that hold the same elements in different orders.
  */
module Permutations {
  import opened Filters

  function Mapped<S, T>(s: seq<S>, f: S -> T): (r: seq<T>)
    ensures |r| == |s| && forall i :: 0 <= i < |s| ==> r[i] == f(s[i])
  {
    seq(|s|, i requires 0 <= i < |s| => f(s[i]))
  }

  predicate Distinct<T(==)>(s: seq<T>) {
    forall i, j :: 0 <= i < j < |s| ==> s[i] != s[j]
  }

  lemma TakeOut<T>(s: seq<T>, j: nat)
    requires j < |s|
    ensures multiset(s[..j] + s[j + 1..]) == multiset(s) - multiset{s[j]}
  {
    assert s == s[..j] + [s[j]] + s[j + 1..];
  }

  /** The last element of `s`, taken out of both. */
  lemma WithoutLast<T>(s: seq<T>, t: seq<T>) returns (j: nat)
    requires s != [] && multiset(s) == multiset(t)
    ensures j < |t| && t[j] == s[|s| - 1]
    ensures multiset(s[..|s| - 1]) == multiset(t[..j] + t[j + 1..])
  {
    var n := |s| - 1;
    assert s[n] in multiset(s);
    j :| 0 <= j < |t| && t[j] == s[n];
    TakeOut(s, n);
    assert s[..n] + s[n + 1..] == s[..n];
    TakeOut(t, j);
  }

  lemma MappedAround<S, T>(t: seq<S>, j: nat, f: S -> T)
    requires j < |t|
    ensures multiset(Mapped(t, f)) == multiset(Mapped(t[..j] + t[j + 1..], f)) + multiset{f(t[j])}
  {
    var m := Mapped(t, f);
    TakeOut(m, j);
    assert m[..j] + m[j + 1..] == Mapped(t[..j] + t[j + 1..], f);
    assert m[j] in multiset(m);
  }

  /** Mapping a function over two orders of the same elements. */
  lemma {:induction false} MappedPermuted<S, T>(s: seq<S>, t: seq<S>, f: S -> T)
    requires multiset(s) == multiset(t)
    ensures multiset(Mapped(s, f)) == multiset(Mapped(t, f))
  {
    if s == [] {
      assert |multiset(t)| == 0;
    } else {
      var n := |s| - 1;
      var j := WithoutLast(s, t);
      MappedPermuted(s[..n], t[..j] + t[j + 1..], f);
      MappedAround(s, n, f);
      assert s[..n] + s[n + 1..] == s[..n];
      MappedAround(t, j, f);
    }
  }

  lemma {:induction false} DistinctOnce<T>(s: seq<T>, x: T)
    requires Distinct(s)
    ensures multiset(s)[x] == if x in s then 1 else 0
  {
    if s != [] {
      var n := |s| - 1;
      DistinctOnce(s[..n], x);
      assert s == s[..n] + [s[n]];
    }
  }

  /** Without repetitions, the elements alone decide. */
  lemma SameMembers<T>(s: seq<T>, t: seq<T>)
    requires Distinct(s) && Distinct(t) && forall x :: x in s <==> x in t
    ensures multiset(s) == multiset(t)
  {
    forall x
      ensures multiset(s)[x] == multiset(t)[x]
    {
      DistinctOnce(s, x);
      DistinctOnce(t, x);
    }
  }

  lemma {:induction false} FilterDistinct<T>(s: seq<T>, keep: T -> bool)
    requires Distinct(s)
    ensures Distinct(Filter(s, keep))
  {
    if s != [] {
      var n := |s| - 1;
      FilterDistinct(s[..n], keep);
      FilterElements(s[..n], keep);
      assert forall x :: x in s[..n] ==> x != s[n];
    }
  }

  predicate Descending(s: seq<real>) {
    forall i, j :: 0 <= i <= j < |s| ==> s[i] >= s[j]
  }

  lemma LastIsLeast(s: seq<real>, x: real)
    requires Descending(s) && x in multiset(s)
    ensures s[|s| - 1] <= x
  {
    var i :| 0 <= i < |s| && s[i] == x;
    assert s[i] >= s[|s| - 1];
  }

  lemma SameLength<T>(s: seq<T>, t: seq<T>)
    requires multiset(s) == multiset(t)
    ensures |s| == |t|
  {
    assert |multiset(s)| == |s| && |multiset(t)| == |t|;
  }

  lemma LastsEqual(s: seq<real>, t: seq<real>)
    requires s != [] && t != [] && Descending(s) && Descending(t) && multiset(s) == multiset(t)
    ensures s[|s| - 1] == t[|t| - 1]
  {
    var x, y := s[|s| - 1], t[|t| - 1];
    assert x in multiset(s) && y in multiset(t);
    hide Descending;
    LastIsLeast(s, y);
    LastIsLeast(t, x);
  }

  lemma ButLast<T>(s: seq<T>, n: nat)
    requires |s| == n + 1
    ensures multiset(s[..n]) == multiset(s) - multiset{s[n]} && s == s[..n] + [s[n]]
  {
    TakeOut(s, n);
    assert s[..n] + s[n + 1..] == s[..n];
  }

  /** The same numbers can be put in descending order in one way only. */
  lemma {:induction false} OneDescending(s: seq<real>, t: seq<real>)
    requires Descending(s) && Descending(t) && multiset(s) == multiset(t)
    ensures s == t
  {
    SameLength(s, t);
    if s != [] {
      var n := |s| - 1;
      LastsEqual(s, t);
      ButLast(s, n);
      ButLast(t, n);
      OneDescending(s[..n], t[..n]);
    }
  }
}
