/**
  The latency histogram: fixed buckets, cumulative output.
  */
module Metrics {

  predicate Increasing(b: seq<real>) {
    forall i, j :: 0 <= i < j < |b| ==> b[i] < b[j]
  }

  /** The first bucket whose bound is at least `v`; one past the last when there is none. */
  predicate IsBucket(bounds: seq<real>, v: real, i: nat) {
    && i <= |bounds|
    && (forall j :: 0 <= j < i ==> bounds[j] < v)
    && (forall j :: i <= j < |bounds| ==> v <= bounds[j])
  }

  function SumTo(counts: seq<nat>, n: nat): nat
    requires n <= |counts|
  {
    if n == 0 then 0 else SumTo(counts, n - 1) + counts[n - 1]
  }

  function AtMost(xs: seq<real>, bound: real): nat {
    if xs == [] then 0 else AtMost(xs[..|xs| - 1], bound) + if xs[|xs| - 1] <= bound then 1 else 0
  }

  /** The cumulative counts are those of the values observed. */
  ghost predicate Describes(bounds: seq<real>, counts: seq<nat>, xs: seq<real>) {
    && |counts| == |bounds| + 1
    && (forall i :: 0 <= i < |bounds| ==> SumTo(counts, i + 1) == AtMost(xs, bounds[i]))
    && SumTo(counts, |counts|) == |xs|
  }

  class Histogram {
    const bounds: seq<real>
    const counts: array<nat>
    var sum: real
    var total: nat
    ghost var observed: seq<real>

    ghost predicate Valid()
      reads this, counts
    {
      Increasing(bounds) && Describes(bounds, counts[..], observed) && total == |observed|
    }

    constructor ()
      ensures Valid() && fresh(counts) && observed == [] && sum == 0.0
    {
      bounds := [1.0, 5.0, 10.0, 25.0, 50.0, 100.0, 250.0, 500.0, 1000.0, 2500.0, 5000.0];
      counts := new nat[12](i => 0);
      sum, total, observed := 0.0, 0, [];
      new;
      forall i | 0 <= i <= 12
        ensures SumTo(counts[..], i) == 0
      {
        AllZero(counts[..], i);
      }
    }

    method Observe(v: real)
      requires Valid()
      modifies this, counts
      ensures Valid() && observed == old(observed) + [v] && sum == old(sum) + v
    {
      sum := sum + v;
      total := total + 1;
      var low, high := 0, |bounds|;
      while low < high
        invariant 0 <= low <= high <= |bounds|
        invariant forall j :: 0 <= j < low ==> bounds[j] < v
        invariant forall j :: high <= j < |bounds| ==> v <= bounds[j]
      {
        var mid := (low + high) / 2;
        if bounds[mid] >= v {
          high := mid;
        } else {
          low := mid + 1;
        }
      }
      ghost var before := counts[..];
      counts[low] := counts[low] + 1;
      observed := observed + [v];
      assert counts[..] == before[low := before[low] + 1];
      CountOne(bounds, before, old(observed), v, low);
    }

    /** The cumulative value of every bound, and last that of +Inf. */
    method Render() returns (cumulative: seq<nat>)
      requires Valid()
      ensures |cumulative| == |bounds| + 1
      ensures forall i :: 0 <= i < |bounds| ==> cumulative[i] == AtMost(observed, bounds[i])
      ensures cumulative[|bounds|] == total == |observed|
      ensures forall i, j :: 0 <= i < j < |cumulative| ==> cumulative[i] <= cumulative[j]
    {
      var cum := 0;
      cumulative := [];
      for i := 0 to |bounds|
        invariant cum == SumTo(counts[..], i) && |cumulative| == i
        invariant forall j :: 0 <= j < i ==> cumulative[j] == SumTo(counts[..], j + 1)
      {
        cum := cum + counts[i];
        cumulative := cumulative + [cum];
      }
      cum := cum + counts[|bounds|];
      cumulative := cumulative + [cum];
      forall i, j | 0 <= i < j < |cumulative|
        ensures cumulative[i] <= cumulative[j]
      {
        SumToGrows(counts[..], i + 1, j + 1);
      }
    }
  }

  lemma {:induction false} AllZero(counts: seq<nat>, n: nat)
    requires n <= |counts| && forall i :: 0 <= i < |counts| ==> counts[i] == 0
    ensures SumTo(counts, n) == 0
  {
    if n > 0 {
      AllZero(counts, n - 1);
    }
  }

  lemma {:induction false} SumToGrows(counts: seq<nat>, m: nat, n: nat)
    requires m <= n <= |counts|
    ensures SumTo(counts, m) <= SumTo(counts, n)
  {
    if m < n {
      SumToGrows(counts, m, n - 1);
    }
  }

  lemma {:induction false} SumToOneMore(counts: seq<nat>, at: nat, n: nat)
    requires at < |counts| && n <= |counts|
    ensures SumTo(counts[at := counts[at] + 1], n) == SumTo(counts, n) + if at < n then 1 else 0
  {
    if n > 0 {
      SumToOneMore(counts, at, n - 1);
    }
  }

  /** Counting a value in its bucket keeps every cumulative value right. */
  lemma CountOne(bounds: seq<real>, counts: seq<nat>, xs: seq<real>, v: real, at: nat)
    requires Describes(bounds, counts, xs) && IsBucket(bounds, v, at)
    ensures Describes(bounds, counts[at := counts[at] + 1], xs + [v])
  {
    var after := counts[at := counts[at] + 1];
    SumToOneMore(counts, at, |counts|);
    assert (xs + [v])[..|xs|] == xs;
    forall i | 0 <= i < |bounds|
      ensures SumTo(after, i + 1) == AtMost(xs + [v], bounds[i])
    {
      SumToOneMore(counts, at, i + 1);
    }
  }
}
