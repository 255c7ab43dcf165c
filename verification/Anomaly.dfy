/**
  The moving baseline of one series and the detector over all series, in exact reals.

  The square root is a parameter, described by its defining equation. The baseline's
  `updated` stamp is not modelled: nothing reads it.
  */
module Anomaly {
  import opened Model
  import opened Reals
  import opened Text

  const GUARD := 0.000000001

  datatype Params = Params(alpha: real, zThres: real, warmup: int)
  {
    predicate Valid() {
      0.0 < alpha < 1.0 && zThres > 0.0
    }
  }

  datatype Baseline = Baseline(mean: real, varc: real, count: nat)

  datatype Event = Event(tenant: string, service: string, signal: string, value: real, score: real, at: int)

  /** The mean moved towards a value at distance `diff`. */
  function MeanStep(alpha: real, mean: real, diff: real): real {
    mean + alpha * diff
  }

  function VarianceStep(alpha: real, varc: real, diff: real): real {
    (1.0 - alpha) * (varc + alpha * diff * diff)
  }

  function Quotient(d: real, std: real): real
    requires std > 0.0
  {
    d / std
  }

  /** The score of `x` against the baseline as it stands. */
  function ZScore(p: Params, sqrt: Root, b: Baseline, x: real): real {
    var std := sqrt(b.varc);
    if std > GUARD then Quotient(x - b.mean, std)
    else if Abs(x - b.mean) > GUARD then (if x > b.mean then p.zThres + 1.0 else -(p.zThres + 1.0))
    else 0.0
  }

  function Update(p: Params, b: Baseline, x: real): Baseline {
    Baseline(MeanStep(p.alpha, b.mean, x - b.mean), VarianceStep(p.alpha, b.varc, x - b.mean), b.count + 1)
  }

  predicate Alerts(p: Params, sqrt: Root, b: Baseline, x: real) {
    b.count + 1 >= p.warmup && Abs(ZScore(p, sqrt, b, x)) >= p.zThres
  }

  /** One observation of a series: its baseline afterwards. */
  function Next(p: Params, b: Option<Baseline>, x: real): Baseline {
    match b
    case None => Baseline(x, 0.0, 1)
    case Some(b) => Update(p, b, x)
  }

  function BaselineOf(base: map<string, Baseline>, key: string): Option<Baseline> {
    if key in base then Some(base[key]) else None
  }

  function SeriesKey(tenant: string, service: string, signal: string): string {
    tenant + [NUL] + (service + [NUL] + signal)
  }

  class Detector {
    const params: Params
    const sqrt: Root
    var base: map<string, Baseline>

    constructor (alpha: real, zThreshold: real, warmup: int, sqrt: Root)
      ensures params.Valid() && params.warmup > 0 && this.sqrt == sqrt && base == map[]
      ensures if 0.0 < alpha < 1.0 then params.alpha == alpha else params.alpha == 0.2
      ensures if zThreshold > 0.0 then params.zThres == zThreshold else params.zThres == 3.0
      ensures if warmup > 0 then params.warmup == warmup else params.warmup == 20
    {
      params := Params(if alpha <= 0.0 || alpha >= 1.0 then 0.2 else alpha,
                       if zThreshold <= 0.0 then 3.0 else zThreshold,
                       if warmup <= 0 then 20 else warmup);
      this.sqrt := sqrt;
      base := map[];
    }

    /** Scores the value against the baseline as it was, then moves the baseline; touches one series. */
    method Observe(tenant: string, service: string, signal: string, value: real, now: int)
      returns (event: Option<Event>)
      modifies this
      ensures var key := SeriesKey(tenant, service, signal);
              var before := BaselineOf(old(base), key);
              && base == old(base)[key := Next(params, before, value)]
              && (event.Some? <==> before.Some? && Alerts(params, sqrt, before.value, value))
              && (event.Some? ==>
                    event.value == Event(tenant, service, signal, value,
                                         ZScore(params, sqrt, before.value, value), now))
    {
      hide MeanStep;
      hide VarianceStep;
      hide Quotient;
      var key := SeriesKey(tenant, service, signal);
      if key !in base {
        base := base[key := Baseline(value, 0.0, 1)];
        return None;
      }
      var b := base[key];
      var std := sqrt(b.varc);
      var z := 0.0;
      if std > GUARD {
        z := Quotient(value - b.mean, std);
      } else if Abs(value - b.mean) > GUARD {
        z := if value > b.mean then params.zThres + 1.0 else -(params.zThres + 1.0);
      }
      var diff := value - b.mean;
      b := b.(mean := MeanStep(params.alpha, b.mean, diff));
      b := b.(varc := VarianceStep(params.alpha, b.varc, diff));
      b := b.(count := b.count + 1);
      base := base[key := b];
      if b.count >= params.warmup && Abs(z) >= params.zThres {
        return Some(Event(tenant, service, signal, value, z, now));
      }
      return None;
    }
  }

  // ----- one series -----

  /** The baseline after a non-empty series. */
  function After(p: Params, xs: seq<real>): Baseline
    requires xs != []
  {
    var n := |xs| - 1;
    if n == 0 then Baseline(xs[0], 0.0, 1) else Update(p, After(p, xs[..n]), xs[n])
  }

  predicate AlertAt(p: Params, sqrt: Root, xs: seq<real>, i: nat)
    requires i < |xs|
  {
    i > 0 && Alerts(p, sqrt, After(p, xs[..i]), xs[i])
  }

  function Pow(x: real, n: nat): real {
    if n == 0 then 1.0 else x * Pow(x, n - 1)
  }

  /** The weight of sample `i` after `n` samples: it decays geometrically, and the first carries the rest. */
  function Weight(alpha: real, n: nat, i: nat): real
    requires i < n
  {
    if i == 0 then Pow(1.0 - alpha, n - 1) else alpha * Pow(1.0 - alpha, n - 1 - i)
  }

  /** The weighted sum of the first `k` samples, with the weights that hold after `n`. */
  function Weighted(alpha: real, n: nat, ys: seq<real>, k: nat): real
    requires k <= |ys| <= n
  {
    if k == 0 then 0.0 else Weighted(alpha, n, ys, k - 1) + Times(Weight(alpha, n, k - 1), ys[k - 1])
  }

  /** The exponentially weighted average of a series. */
  function Average(alpha: real, ys: seq<real>): real {
    Weighted(alpha, |ys|, ys, |ys|)
  }

  /** Squared deviations from `c`. */
  function Deviations(xs: seq<real>, c: real): (d: seq<real>)
    ensures |d| == |xs| && forall i :: 0 <= i < |xs| ==> d[i] == Sq(xs[i] - c)
  {
    if xs == [] then [] else Deviations(xs[..|xs| - 1], c) + [Sq(xs[|xs| - 1] - c)]
  }

  lemma {:induction false} WeightedDecays(alpha: real, ys: seq<real>, y: real, k: nat)
    requires k <= |ys|
    ensures Weighted(alpha, |ys| + 1, ys + [y], k) == Times(1.0 - alpha, Weighted(alpha, |ys|, ys, k))
  {
    var r, n := 1.0 - alpha, |ys|;
    if k > 0 {
      WeightDecays(alpha, n, k - 1);
      hide Weight;
      hide Times;
      var w := Weight(alpha, n, k - 1);
      WeightedDecays(alpha, ys, y, k - 1);
      TimesAssoc(r, w, ys[k - 1]);
      TimesSum(r, Weighted(alpha, n, ys, k - 1), Times(w, ys[k - 1]));
    }
  }

  lemma WeightDecays(alpha: real, n: nat, i: nat)
    requires i < n
    ensures Weight(alpha, n + 1, i) == Times(1.0 - alpha, Weight(alpha, n, i))
  {
    if i > 0 {
      var q := Pow(1.0 - alpha, n - 1 - i);
      assert Pow(1.0 - alpha, n - i) == (1.0 - alpha) * q;
      assert alpha * ((1.0 - alpha) * q) == (1.0 - alpha) * (alpha * q);
    }
  }

  /** One more sample: everything before decays by 1 - alpha, the sample enters with alpha. */
  lemma AverageStep(alpha: real, ys: seq<real>, y: real)
    requires ys != []
    ensures Average(alpha, ys + [y]) == Times(1.0 - alpha, Average(alpha, ys)) + Times(alpha, y)
  {
    var n, zs := |ys|, ys + [y];
    WeightedDecays(alpha, ys, y, n);
    LastWeight(alpha, n);
    hide Times;
    hide Weight;
    assert Weighted(alpha, n + 1, zs, n + 1)
        == Weighted(alpha, n + 1, zs, n) + Times(Weight(alpha, n + 1, n), zs[n]);
  }

  lemma LastWeight(alpha: real, n: nat)
    requires n > 0
    ensures Weight(alpha, n + 1, n) == alpha
  {
    assert Pow(1.0 - alpha, 0) == 1.0;
  }

  /** The same, as a step of the mean. */
  lemma AverageMoves(alpha: real, ys: seq<real>, y: real)
    requires ys != []
    ensures Average(alpha, ys + [y]) == MeanStep(alpha, Average(alpha, ys), y - Average(alpha, ys))
  {
    hide Average;
    hide Times;
    hide MeanStep;
    AverageStep(alpha, ys, y);
    Mixed(alpha, Average(alpha, ys), y);
  }

  lemma Mixed(alpha: real, m: real, x: real)
    ensures MeanStep(alpha, m, x - m) == Times(1.0 - alpha, m) + Times(alpha, x)
  {
  }

  lemma AverageOne(alpha: real, y: real)
    ensures Average(alpha, [y]) == y
  {
    assert Weighted(alpha, 1, [y], 0) == 0.0;
    assert Weight(alpha, 1, 0) == 1.0;
  }

  /** The recurrence computes the exponentially weighted mean. */
  lemma {:induction false} MeanIsAverage(p: Params, xs: seq<real>)
    requires xs != []
    ensures After(p, xs).mean == Average(p.alpha, xs)
  {
    hide Average;
    hide MeanStep;
    hide VarianceStep;
    var n := |xs| - 1;
    if n == 0 {
      assert xs == [xs[0]];
      AverageOne(p.alpha, xs[0]);
    } else {
      MeanIsAverage(p, xs[..n]);
      AverageMoves(p.alpha, xs[..n], xs[n]);
      assert xs == xs[..n] + [xs[n]];
      assert After(p, xs) == Update(p, After(p, xs[..n]), xs[n]);
    }
  }

  /** The weights add up to one: the average of equal samples is that sample. */
  lemma WeightsAddUp(p: Params, ones: seq<real>)
    requires ones != [] && forall i :: 0 <= i < |ones| ==> ones[i] == 1.0
    ensures Average(p.alpha, ones) == 1.0
  {
    MeanIsAverage(p, ones);
    ConstantSeries(p, ones, 1.0);
  }

  lemma ParallelAxis(alpha: real, v: real, m: real, x: real, c: real)
    ensures Times(1.0 - alpha, v + Sq(m - c)) + Times(alpha, Sq(x - c))
         == VarianceStep(alpha, v, x - m) + Sq(MeanStep(alpha, m, x - m) - c)
  {
    var e, d := m - c, x - m;
    assert x - c == e + d && MeanStep(alpha, m, d) - c == e + alpha * d;
    AxisMoved(alpha, v, e, d);
  }

  lemma AxisMoved(alpha: real, v: real, e: real, d: real)
    ensures Times(1.0 - alpha, v + Sq(e)) + Times(alpha, Sq(e + d)) == VarianceStep(alpha, v, d) + Sq(e + alpha * d)
  {
    assert Sq(e + d) == e * e + 2.0 * e * d + d * d;
    assert Sq(e + alpha * d) == e * e + 2.0 * alpha * e * d + alpha * alpha * d * d;
  }

  /** The weighted squared deviation from any point `c`. */
  lemma {:induction false} SpreadAround(p: Params, xs: seq<real>, c: real)
    requires xs != []
    ensures Average(p.alpha, Deviations(xs, c)) == After(p, xs).varc + Sq(After(p, xs).mean - c)
  {
    hide Average;
    hide MeanStep;
    hide VarianceStep;
    hide Sq;
    hide Times;
    var n := |xs| - 1;
    if n == 0 {
      assert Deviations(xs, c) == [Sq(xs[0] - c)];
      AverageOne(p.alpha, Sq(xs[0] - c));
    } else {
      SpreadAround(p, xs[..n], c);
      AverageStep(p.alpha, Deviations(xs[..n], c), Sq(xs[n] - c));
      var b := After(p, xs[..n]);
      ParallelAxis(p.alpha, b.varc, b.mean, xs[n], c);
      assert After(p, xs) == Update(p, b, xs[n]);
      assert Deviations(xs, c) == Deviations(xs[..n], c) + [Sq(xs[n] - c)];
    }
  }

  /** The recurrence computes the exponentially weighted variance about that mean. */
  lemma VarianceIsAverage(p: Params, xs: seq<real>)
    requires xs != []
    ensures After(p, xs).varc == Average(p.alpha, Deviations(xs, After(p, xs).mean))
  {
    SpreadAround(p, xs, After(p, xs).mean);
    assert Sq(0.0) == 0.0;
  }

  lemma BetweenMeans(alpha: real, m: real, x: real, lo: real, hi: real)
    requires 0.0 < alpha < 1.0 && lo <= m <= hi && lo <= x <= hi
    ensures lo <= MeanStep(alpha, m, x - m) <= hi
  {
    Product(1.0 - alpha, m - lo);
    Product(1.0 - alpha, hi - m);
    Product(alpha, x - lo);
    Product(alpha, hi - x);
  }

  lemma VarianceStays(alpha: real, v: real, d: real)
    requires 0.0 < alpha < 1.0 && v >= 0.0
    ensures VarianceStep(alpha, v, d) >= 0.0
  {
    SqNonNegative(d);
    Product(alpha, Sq(d));
    assert alpha * Sq(d) == alpha * d * d;
    Product(1.0 - alpha, v + alpha * d * d);
  }

  lemma {:induction false} VarianceNonNegative(p: Params, xs: seq<real>)
    requires p.Valid() && xs != []
    ensures After(p, xs).varc >= 0.0 && After(p, xs).count == |xs|
  {
    hide MeanStep;
    hide VarianceStep;
    var n := |xs| - 1;
    if n > 0 {
      VarianceNonNegative(p, xs[..n]);
      VarianceStays(p.alpha, After(p, xs[..n]).varc, xs[n] - After(p, xs[..n]).mean);
    }
  }

  /** The mean stays within the range of the samples. */
  lemma {:induction false} WithinRange(p: Params, xs: seq<real>, lo: real, hi: real)
    requires p.Valid() && xs != []
    requires forall i :: 0 <= i < |xs| ==> lo <= xs[i] <= hi
    ensures lo <= After(p, xs).mean <= hi
  {
    hide MeanStep;
    hide VarianceStep;
    var n := |xs| - 1;
    if n > 0 {
      WithinRange(p, xs[..n], lo, hi);
      BetweenMeans(p.alpha, After(p, xs[..n]).mean, xs[n], lo, hi);
    }
  }

  lemma {:induction false} ConstantSeries(p: Params, xs: seq<real>, x: real)
    requires xs != [] && forall i :: 0 <= i < |xs| ==> xs[i] == x
    ensures After(p, xs) == Baseline(x, 0.0, |xs|)
  {
    var n := |xs| - 1;
    if n > 0 {
      ConstantSeries(p, xs[..n], x);
      StaysConstant(p, x, n);
      assert After(p, xs) == Update(p, After(p, xs[..n]), xs[n]);
      hide Update;
    }
  }

  lemma StaysConstant(p: Params, x: real, n: nat)
    ensures Update(p, Baseline(x, 0.0, n), x) == Baseline(x, 0.0, n + 1)
  {
    assert MeanStep(p.alpha, x, 0.0) == x && VarianceStep(p.alpha, 0.0, 0.0) == 0.0;
  }

  /** A constant series never alerts. */
  lemma ConstantNeverAlerts(p: Params, sqrt: Root, xs: seq<real>, x: real, i: nat)
    requires p.Valid() && IsRoot(sqrt)
    requires forall j :: 0 <= j < |xs| ==> xs[j] == x
    requires i < |xs|
    ensures !AlertAt(p, sqrt, xs, i)
  {
    if i > 0 {
      ConstantSeries(p, xs[..i], x);
      RootUnique(sqrt, 0.0);
      assert Sq(0.0) == 0.0;
    }
  }

  // ----- when a sample alerts -----

  lemma WideSpread(sqrt: Root, v: real)
    requires IsRoot(sqrt) && v >= 0.0
    ensures sqrt(v) > GUARD <==> v > Sq(GUARD)
  {
    SqMonotone(sqrt(v), GUARD);
  }

  lemma QuotientSign(d: real, std: real)
    requires std > 0.0
    ensures Quotient(d, std) > 0.0 <==> d > 0.0
    ensures Quotient(d, std) < 0.0 <==> d < 0.0
    ensures Sq(Quotient(d, std)) * Sq(std) == Sq(d)
  {
    var q := d / std;
    assert q * std == d;
    SqProduct(q, std);
    if q > 0.0 {
      ProductPositive(q, std);
    } else if q < 0.0 {
      ProductPositive(-q, std);
    }
  }

  /**
    The score has the sign of the deviation. Its square is the squared deviation in units of
    the variance; where there is hardly any spread it is one above the threshold, or zero.
    */
  lemma ScoreMeans(p: Params, sqrt: Root, b: Baseline, x: real)
    requires p.Valid() && IsRoot(sqrt) && b.varc >= 0.0
    ensures var z, d := ZScore(p, sqrt, b, x), x - b.mean;
            && (b.varc > Sq(GUARD) ==> Sq(z) * b.varc == Sq(d) && (z > 0.0 <==> d > 0.0) && (z < 0.0 <==> d < 0.0))
            && (b.varc <= Sq(GUARD) && Abs(d) <= GUARD ==> z == 0.0)
            && (b.varc <= Sq(GUARD) && d > GUARD ==> z == p.zThres + 1.0)
            && (b.varc <= Sq(GUARD) && d < -GUARD ==> z == -p.zThres - 1.0)
  {
    WideSpread(sqrt, b.varc);
    if b.varc > Sq(GUARD) {
      QuotientSign(x - b.mean, sqrt(b.varc));
    }
    hide Quotient;
    hide Sq;
  }

  /** At least `zThres` standard deviations from `m` on either side; without spread, beyond the guard. */
  predicate Outlying(zThres: real, m: real, v: real, x: real) {
    if v > Sq(GUARD) then Sq(x - m) >= Sq(zThres) * v else Abs(x - m) > GUARD
  }

  /** Against a baseline, without its score. */
  lemma AlertsExactly(p: Params, sqrt: Root, b: Baseline, x: real)
    requires p.Valid() && IsRoot(sqrt) && b.varc >= 0.0
    ensures Alerts(p, sqrt, b, x) <==>
              && b.count + 1 >= p.warmup
              && Outlying(p.zThres, b.mean, b.varc, x)
  {
    var std := sqrt(b.varc);
    WideSpread(sqrt, b.varc);
    assert Sq(std) == b.varc;
    if b.varc > Sq(GUARD) {
      QuotientAtLeast(x - b.mean, std, p.zThres);
      hide Sq;
    } else {
      hide Sq;
      hide Quotient;
    }
  }

  /**
    In every series, sample `i` alerts exactly when the series is warm and, with the weighted
    mean and the weighted variance of the samples before it, the sample is at least the
    threshold number of standard deviations away on either side; where there is hardly any
    spread, when it is beyond the guard.
    */
  lemma AlertsIff(p: Params, sqrt: Root, xs: seq<real>, i: nat)
    requires p.Valid() && IsRoot(sqrt) && 0 < i < |xs|
    ensures AlertAt(p, sqrt, xs, i) <==>
              var m := Average(p.alpha, xs[..i]);
              var v := Average(p.alpha, Deviations(xs[..i], m));
              i + 1 >= p.warmup && Outlying(p.zThres, m, v, xs[i])
  {
    var before := xs[..i];
    MeanIsAverage(p, before);
    VarianceIsAverage(p, before);
    VarianceNonNegative(p, before);
    hide After;
    hide Average;
    hide Alerts;
    hide Outlying;
    AlertsExactly(p, sqrt, After(p, before), xs[i]);
  }

  // ----- repeated values -----

  /** The share of an old deviation that is gone after `k` more samples: 1 - (1 - alpha)^k. */
  function Faded(alpha: real, k: nat): real {
    1.0 - Pow(1.0 - alpha, k)
  }

  lemma {:induction false} FadedBetween(alpha: real, k: nat)
    requires 0.0 < alpha < 1.0
    ensures 0.0 <= Faded(alpha, k) < 1.0 && (k > 0 ==> Faded(alpha, k) > 0.0)
  {
    if k > 0 {
      FadedBetween(alpha, k - 1);
      var r, w := 1.0 - alpha, Pow(1.0 - alpha, k - 1);
      ProductPositive(r, w);
      ProductPositive(alpha, w);
      assert Pow(r, k) == r * w && w - r * w == alpha * w;
    }
  }

  /** After `k` samples equal to `x` the deviation of `x` is small relative to the variance. */
  predicate Settled(p: Params, b: Baseline, x: real, k: nat) {
    Times(Faded(p.alpha, k), Sq(x - b.mean)) <= Times(1.0 - Faded(p.alpha, k), b.varc)
  }

  lemma MeanShape(alpha: real, m: real, x: real)
    ensures x - MeanStep(alpha, m, x - m) == Times(1.0 - alpha, x - m)
  {
  }

  lemma VarianceShape(alpha: real, v: real, d: real)
    ensures VarianceStep(alpha, v, d) == Times(1.0 - alpha, v + Times(alpha, Sq(d)))
  {
    assert alpha * d * d == alpha * (d * d);
  }

  lemma SqTimes(x: real, y: real)
    ensures Sq(Times(x, y)) == Times(Sq(x), Sq(y))
  {
    SqProduct(x, y);
  }

  lemma UpdateShape(p: Params, b: Baseline, x: real)
    ensures var r, c := 1.0 - p.alpha, Update(p, b, x);
            && x - c.mean == Times(r, x - b.mean)
            && Sq(x - c.mean) == Times(Sq(r), Sq(x - b.mean))
            && c.varc == Times(r, b.varc + Times(p.alpha, Sq(x - b.mean)))
  {
    MeanShape(p.alpha, b.mean, x);
    VarianceShape(p.alpha, b.varc, x - b.mean);
    SqTimes(1.0 - p.alpha, x - b.mean);
    hide MeanStep;
    hide VarianceStep;
    hide Sq;
    hide Times;
  }

  /** Taking in the value once more settles it further. */
  lemma Settles(p: Params, b: Baseline, x: real, k: nat)
    requires p.Valid() && Settled(p, b, x, k)
    ensures Settled(p, Update(p, b, x), x, k + 1)
  {
    var r, w := 1.0 - p.alpha, Pow(1.0 - p.alpha, k);
    assert Pow(r, k + 1) == Times(r, w);
    UpdateShape(p, b, x);
    hide Update;
    hide Sq;
    hide Times;
    SettlesBy(p.alpha, r, w, Sq(x - b.mean), b.varc);
  }

  lemma SettlesBy(a: real, r: real, w: real, dd: real, v: real)
    requires r == 1.0 - a && Times(1.0 - w, dd) <= Times(w, v)
    ensures Times(1.0 - Times(r, w), Times(Sq(r), dd)) <= Times(Times(r, w), Times(r, v + Times(a, dd)))
  {
    var gap := w * v - (1.0 - w) * dd;
    SqNonNegative(r);
    Product(Sq(r), gap);
    assert r * w * (r * (v + a * dd)) - (1.0 - r * w) * (Sq(r) * dd) == Sq(r) * gap;
  }

  /** Sample `i` is at least the `k`-th repeat of one value. */
  predicate Repeats(xs: seq<real>, i: nat, k: nat)
    requires i < |xs|
  {
    k <= i && forall j :: i - k <= j < i ==> xs[j] == xs[i]
  }

  /** A repeated value is settled, whatever came before. */
  lemma {:induction false} RepeatSettled(p: Params, xs: seq<real>, i: nat, k: nat)
    requires p.Valid() && 0 < i < |xs| && Repeats(xs, i, k)
    ensures Settled(p, After(p, xs[..i]), xs[i], k)
  {
    hide Update;
    hide Sq;
    var b := After(p, xs[..i]);
    if k == 0 {
      VarianceNonNegative(p, xs[..i]);
    } else if i == 1 {
      assert Sq(xs[1] - xs[0]) == 0.0 by {
        SqNonNegative(xs[1] - xs[0]);
      }
      assert b == Baseline(xs[0], 0.0, 1);
    } else {
      hide Settled;
      RepeatSettled(p, xs, i - 1, k - 1);
      assert xs[..i][..i - 1] == xs[..i - 1];
      Settles(p, After(p, xs[..i - 1]), xs[i], k - 1);
    }
  }

  lemma BelowThreshold(q: real, zz: real, v: real, dd: real)
    requires q > 0.0 && v > 0.0 && zz * q > 1.0 - q
    requires Times(q, dd) <= Times(1.0 - q, v)
    ensures dd < zz * v
  {
    ProductPositive(zz * q - (1.0 - q), v);
    assert q * (zz * v - dd) > 0.0;
    if zz * v - dd <= 0.0 {
      Product(q, dd - zz * v);
    }
  }

  /** A `k`-th repeat does not alert above the guard when zThres^2 * (1 - w) > w with w = (1 - alpha)^k. */
  lemma RepeatAboveGuard(p: Params, sqrt: Root, b: Baseline, x: real, k: nat)
    requires p.Valid() && IsRoot(sqrt) && b.varc >= 0.0 && k > 0 && Settled(p, b, x, k)
    requires Sq(p.zThres) * Faded(p.alpha, k) > 1.0 - Faded(p.alpha, k)
    requires sqrt(b.varc) > GUARD
    ensures !Alerts(p, sqrt, b, x)
  {
    hide Sq;
    var std, d := sqrt(b.varc), x - b.mean;
    FadedBetween(p.alpha, k);
    SqNonNegative(std);
    BelowThreshold(Faded(p.alpha, k), Sq(p.zThres), b.varc, Sq(d));
    QuotientAtLeast(d, std, p.zThres);
  }

  /** Nor at or below the guard when (1 - alpha)^k is at most one half. */
  lemma RepeatBelowGuard(p: Params, sqrt: Root, b: Baseline, x: real, k: nat)
    requires p.Valid() && IsRoot(sqrt) && b.varc >= 0.0 && Settled(p, b, x, k)
    requires Faded(p.alpha, k) >= 0.5 && sqrt(b.varc) <= GUARD
    ensures !Alerts(p, sqrt, b, x)
  {
    hide Sq;
    hide Quotient;
    var std, d := sqrt(b.varc), x - b.mean;
    Closer(Faded(p.alpha, k), b.varc, Sq(d));
    SqAbs(d);
    SqMonotone(Abs(d), std);
  }

  lemma Closer(q: real, v: real, dd: real)
    requires q >= 0.5 && v >= 0.0 && Times(q, dd) <= Times(1.0 - q, v)
    ensures dd <= v
  {
    Product(2.0 * q - 1.0, v);
    if dd > v {
      ProductPositive(q, dd - v);
    }
  }

  /** In no series does a `k`-th or later repeat of a value alert. */
  ghost predicate QuietFrom(p: Params, sqrt: Root, k: nat) {
    forall xs: seq<real>, i: int :: 0 <= i < |xs| && Repeats(xs, i, k) ==> !AlertAt(p, sqrt, xs, i)
  }

  lemma RepeatsAreQuiet(p: Params, sqrt: Root, k: nat)
    requires p.Valid() && IsRoot(sqrt) && k > 0
    requires Sq(p.zThres) * Faded(p.alpha, k) > 1.0 - Faded(p.alpha, k) && Faded(p.alpha, k) >= 0.5
    ensures QuietFrom(p, sqrt, k)
  {
    hide Sq;
    hide Settled;
    hide Alerts;
    hide After;
    hide Faded;
    forall xs: seq<real>, i: int | 0 <= i < |xs| && Repeats(xs, i, k)
      ensures !AlertAt(p, sqrt, xs, i)
    {
      var b := After(p, xs[..i]);
      VarianceNonNegative(p, xs[..i]);
      RepeatSettled(p, xs, i, k);
      if sqrt(b.varc) > GUARD {
        RepeatAboveGuard(p, sqrt, b, xs[i], k);
      } else {
        RepeatBelowGuard(p, sqrt, b, xs[i], k);
      }
    }
  }

  // ----- counts -----

  /** A whole number that is not negative. */
  predicate Count(x: real) {
    x >= 0.0 && x.Floor as real == x
  }

  predicate Counts(xs: seq<real>) {
    forall i :: 0 <= i < |xs| ==> Count(xs[i])
  }

  /** In no series of counts does a `k`-th or later repeat alert. */
  ghost predicate QuietOnCountsFrom(p: Params, sqrt: Root, k: nat) {
    forall xs: seq<real>, i: int :: 0 <= i < |xs| && Counts(xs) && Repeats(xs, i, k) ==> !AlertAt(p, sqrt, xs, i)
  }

  lemma CountsDiffer(x: real, c: real)
    requires Count(x) && Count(c)
    ensures Abs(x - c) <= Sq(x - c)
  {
    var d := Abs(x - c);
    assert x - c == (x.Floor - c.Floor) as real;
    SqAbs(x - c);
    if d >= 1.0 {
      Product(d, d - 1.0);
    } else {
      assert x.Floor == c.Floor;
    }
  }

  lemma TimesMonotone(r: real, s: real, t: real)
    requires r >= 0.0 && s <= t
    ensures Times(r, s) <= Times(r, t)
  {
    Product(r, t - s);
  }

  lemma MeanNears(alpha: real, m: real, x: real, c: real)
    requires 0.0 < alpha < 1.0
    ensures Abs(MeanStep(alpha, m, x - m) - c) <= Times(1.0 - alpha, Abs(m - c)) + Times(alpha, Abs(x - c))
  {
    var r := 1.0 - alpha;
    assert MeanStep(alpha, m, x - m) - c == r * (m - c) + alpha * (x - c);
    Product(r, Abs(m - c) - (m - c));
    Product(r, Abs(m - c) + (m - c));
    Product(alpha, Abs(x - c) - (x - c));
    Product(alpha, Abs(x - c) + (x - c));
  }

  /** A mean of counts is at a distance from any count only if the counts are spread out. */
  lemma {:induction false} CountsSpread(p: Params, xs: seq<real>, c: real)
    requires p.Valid() && xs != [] && Counts(xs) && Count(c)
    ensures var b := After(p, xs); Abs(b.mean - c) <= b.varc + Sq(b.mean - c)
  {
    hide MeanStep;
    hide VarianceStep;
    hide Times;
    hide Sq;
    hide Abs;
    hide Count;
    var n := |xs| - 1;
    CountsDiffer(xs[n], c);
    if n > 0 {
      CountsSpread(p, xs[..n], c);
      var b, x := After(p, xs[..n]), xs[n];
      MeanNears(p.alpha, b.mean, x, c);
      TimesMonotone(1.0 - p.alpha, Abs(b.mean - c), b.varc + Sq(b.mean - c));
      TimesMonotone(p.alpha, Abs(x - c), Sq(x - c));
      ParallelAxis(p.alpha, b.varc, b.mean, x, c);
      assert After(p, xs) == Update(p, b, x);
    }
  }

  /** Within the guard's spread, a settled deviation that spread allows is within the guard. */
  lemma SettledNear(q: real, v: real, d: real)
    requires 0.0 < q < 0.5 && Sq(GUARD) < q * (1.0 - q) && 0.0 <= v <= Sq(GUARD) && d >= 0.0
    requires Times(q, Sq(d)) <= Times(1.0 - q, v) && d <= v + Sq(d)
    ensures d <= GUARD
  {
    var w := 1.0 - q;
    BelowShare(q, w, v, d);
    assert d * (1.0 - d) <= v < q * w;
    assert (w - d) * (q - d) == q * w - d * (1.0 - d);
    if d >= q {
      Product(w - d, d - q);
    }
    Product(d, 0.5 - d);
    assert d * 0.5 <= Sq(GUARD);
  }

  lemma BelowShare(q: real, w: real, v: real, d: real)
    requires 0.0 < q && 0.0 < w && 0.0 <= d && v < q * w
    requires Times(q, Sq(d)) <= Times(w, v)
    ensures d < w
  {
    ProductPositive(w, q * w - v);
    assert q * (Sq(w) - Sq(d)) > 0.0;
    if Sq(w) <= Sq(d) {
      Product(q, Sq(d) - Sq(w));
    }
    SqMonotone(w, d);
  }

  lemma CountsAreQuiet(p: Params, sqrt: Root, k: nat)
    requires p.Valid() && IsRoot(sqrt) && k > 0
    requires Sq(p.zThres) * Faded(p.alpha, k) > 1.0 - Faded(p.alpha, k)
    requires Faded(p.alpha, k) < 0.5 && Sq(GUARD) < Faded(p.alpha, k) * (1.0 - Faded(p.alpha, k))
    ensures QuietOnCountsFrom(p, sqrt, k)
  {
    FadedBetween(p.alpha, k);
    hide Sq;
    hide Settled;
    hide Alerts;
    hide After;
    hide Faded;
    hide Count;
    forall xs: seq<real>, i: int | 0 <= i < |xs| && Counts(xs) && Repeats(xs, i, k)
      ensures !AlertAt(p, sqrt, xs, i)
    {
      var b := After(p, xs[..i]);
      VarianceNonNegative(p, xs[..i]);
      RepeatSettled(p, xs, i, k);
      CountsSpread(p, xs[..i], xs[i]);
      if sqrt(b.varc) > GUARD {
        RepeatAboveGuard(p, sqrt, b, xs[i], k);
      } else {
        CountBelowGuard(p, sqrt, b, xs[i], k);
      }
    }
  }

  lemma CountBelowGuard(p: Params, sqrt: Root, b: Baseline, x: real, k: nat)
    requires p.Valid() && IsRoot(sqrt) && b.varc >= 0.0 && Settled(p, b, x, k) && sqrt(b.varc) <= GUARD
    requires 0.0 < Faded(p.alpha, k) < 0.5 && Sq(GUARD) < Faded(p.alpha, k) * (1.0 - Faded(p.alpha, k))
    requires Abs(b.mean - x) <= b.varc + Sq(b.mean - x)
    ensures !Alerts(p, sqrt, b, x)
  {
    var d := Abs(x - b.mean);
    SqAbs(x - b.mean);
    SqAbs(b.mean - x);
    assert Abs(b.mean - x) == d;
    SqMonotone(sqrt(b.varc), GUARD);
    hide Faded;
    hide Sq;
    hide Quotient;
    SettledNear(Faded(p.alpha, k), b.varc, d);
  }

  // ----- repeats that do alert -----

  function Copies(x: real, n: nat): (xs: seq<real>)
    ensures |xs| == n && forall i :: 0 <= i < n ==> xs[i] == x
  {
    if n == 0 then [] else Copies(x, n - 1) + [x]
  }

  /** A quiet baseline after `k` samples of `x`. */
  function Jumped(p: Params, x: real, k: nat): Baseline {
    if k == 0 then Baseline(0.0, 0.0, 0) else Update(p, Jumped(p, x, k - 1), x)
  }

  /** At deviation `w * x`, with the variance that belongs to it. */
  predicate OnTheWay(b: Baseline, x: real, w: real) {
    x - b.mean == Times(w, x) && b.varc == Times(w, Times(1.0 - w, Sq(x)))
  }

  lemma FurtherOnTheWay(p: Params, b: Baseline, x: real, w: real)
    requires OnTheWay(b, x, w)
    ensures OnTheWay(Update(p, b, x), x, Times(1.0 - p.alpha, w))
  {
    UpdateShape(p, b, x);
    hide Update;
    hide Sq;
    hide Times;
    SqTimes(w, x);
    TimesAssoc(1.0 - p.alpha, w, x);
    Spread(p.alpha, w, Sq(x));
  }

  lemma Spread(a: real, w: real, xx: real)
    ensures Times(1.0 - a, Times(w, Times(1.0 - w, xx)) + Times(a, Times(Sq(w), xx)))
         == Times(Times(1.0 - a, w), Times(1.0 - Times(1.0 - a, w), xx))
  {
    assert w * (1.0 - w) + a * Sq(w) == w * (1.0 - (1.0 - a) * w);
    assert w * ((1.0 - w) * xx) + a * (Sq(w) * xx) == (w * (1.0 - w) + a * Sq(w)) * xx;
  }

  lemma {:induction false} JumpedShape(p: Params, x: real, k: nat)
    ensures OnTheWay(Jumped(p, x, k), x, 1.0 - Faded(p.alpha, k))
  {
    if k > 0 {
      JumpedShape(p, x, k - 1);
      var r, w := 1.0 - p.alpha, Pow(1.0 - p.alpha, k - 1);
      assert Pow(r, k) == Times(r, w);
      hide OnTheWay;
      hide Update;
      hide Times;
      FurtherOnTheWay(p, Jumped(p, x, k - 1), x, w);
    }
  }

  lemma {:induction false} JumpedSeries(p: Params, n: nat, x: real, k: nat)
    requires n > 0
    ensures After(p, Copies(0.0, n) + Copies(x, k)) == Jumped(p, x, k).(count := n + k)
  {
    var xs := Copies(0.0, n) + Copies(x, k);
    if k == 0 {
      assert xs == Copies(0.0, n);
      ConstantSeries(p, xs, 0.0);
    } else {
      JumpedSeries(p, n, x, k - 1);
      assert xs[..n + k - 1] == Copies(0.0, n) + Copies(x, k - 1);
    }
  }

  /** A value that alerts against that baseline refutes the property, on counts too if it is one. */
  lemma JumpAlertsAgain(p: Params, sqrt: Root, x: real, k: nat)
    requires Abs(ZScore(p, sqrt, Jumped(p, x, k), x)) >= p.zThres
    ensures !QuietFrom(p, sqrt, k)
    ensures Count(x) ==> !QuietOnCountsFrom(p, sqrt, k)
  {
    hide Update;
    hide Quotient;
    var n := if p.warmup > 0 then p.warmup else 1;
    var xs := Copies(0.0, n) + Copies(x, k + 1);
    JumpedSeries(p, n, x, k);
    assert xs[..n + k] == Copies(0.0, n) + Copies(x, k);
    assert AlertAt(p, sqrt, xs, n + k);
    assert Repeats(xs, n + k, k);
    assert Count(x) ==> Counts(xs);
  }

  lemma LowThresholdAlertsAgain(p: Params, sqrt: Root, k: nat)
    requires p.Valid() && IsRoot(sqrt) && k > 0
    requires Sq(p.zThres) * Faded(p.alpha, k) <= 1.0 - Faded(p.alpha, k)
    ensures !QuietFrom(p, sqrt, k) && !QuietOnCountsFrom(p, sqrt, k)
  {
    FadedBetween(p.alpha, k);
    hide Faded;
    hide Jumped;
    hide Sq;
    hide Times;
    var x := FarJump(Faded(p.alpha, k), Sq(p.zThres));
    JumpedShape(p, x, k);
    FarAgain(p, sqrt, x, k);
  }

  /** A whole jump that is still far from the mean when a share `q` of it has faded. */
  lemma FarJump(q: real, zz: real) returns (x: real)
    requires 0.0 < q < 1.0 && zz * q <= 1.0 - q
    ensures Count(x)
    ensures var v := Times(1.0 - q, Times(q, Sq(x))); v > 1.0 && Sq(Times(1.0 - q, x)) >= zz * v
  {
    var r := 1.0 - q;
    ProductPositive(r, q);
    ProductPositive(r, r);
    x := CountBeyond(r * q);
    Product(r * q * x - 1.0, x);
    assert r * q * Sq(x) >= x;
    assert Times(r, Times(q, Sq(x))) == r * q * Sq(x);
    StillFar(r, q, zz, Sq(x));
    SqProduct(r, x);
  }

  /** A count greater than the inverse of `q`. */
  lemma CountBeyond(q: real) returns (x: real)
    requires 0.0 < q < 1.0
    ensures Count(x) && x > 1.0 && q * x >= 1.0
  {
    var y := 1.0 / q;
    assert q * y == 1.0;
    if y <= 1.0 {
      Product(q, 1.0 - y);
    }
    x := (y.Floor + 1) as real;
    Product(q, x - y);
  }

  lemma StillFar(r: real, a: real, zz: real, xx: real)
    requires r > 0.0 && xx >= 0.0 && zz * a <= r
    ensures zz * (r * a * xx) <= Sq(r) * xx
  {
    Product(r, xx);
    Product(r - zz * a, r * xx);
  }

  lemma FarAgain(p: Params, sqrt: Root, x: real, k: nat)
    requires p.Valid() && IsRoot(sqrt)
    requires Jumped(p, x, k).varc > 1.0
    requires Sq(x - Jumped(p, x, k).mean) >= Sq(p.zThres) * Jumped(p, x, k).varc
    ensures !QuietFrom(p, sqrt, k)
    ensures Count(x) ==> !QuietOnCountsFrom(p, sqrt, k)
  {
    hide Jumped;
    var b := Jumped(p, x, k);
    var std := sqrt(b.varc);
    SqMonotone(std, GUARD);
    assert Sq(GUARD) < 1.0;
    QuotientAtLeast(x - b.mean, std, p.zThres);
    JumpAlertsAgain(p, sqrt, x, k);
  }

  lemma SlowFadingAlertsAgain(p: Params, sqrt: Root, k: nat)
    requires p.Valid() && IsRoot(sqrt) && k > 0 && Faded(p.alpha, k) < 0.5
    ensures !QuietFrom(p, sqrt, k)
  {
    FadedBetween(p.alpha, k);
    hide Faded;
    hide Jumped;
    hide Sq;
    hide Times;
    var x := NearJump(sqrt, Faded(p.alpha, k));
    JumpedShape(p, x, k);
    SqNonNegative(GUARD);
    NearGuardAgain(p, sqrt, x, k);
  }

  /** A jump whose spread is at the guard, while it is still beyond it, when a share `q` has faded. */
  lemma NearJump(sqrt: Root, q: real) returns (x: real)
    requires IsRoot(sqrt) && 0.0 < q < 0.5
    ensures Times(1.0 - q, Times(q, Sq(x))) == Sq(GUARD) && Times(1.0 - q, x) > GUARD
  {
    var r := 1.0 - q;
    ProductPositive(r, q);
    RootPositive(sqrt, r * q);
    var s := sqrt(r * q);
    x := GUARD / s;
    assert x * s == GUARD;
    SqProduct(x, s);
    assert Times(r, Times(q, Sq(x))) == r * q * Sq(x) == Sq(x * s);
    ProductPositive(r, r - q);
    assert Sq(r) > r * q;
    SqMonotone(r, s);
    BeyondGuard(r, s, x);
  }

  lemma BeyondGuard(r: real, s: real, x: real)
    requires r > s > 0.0 && x * s == GUARD
    ensures r * x > GUARD
  {
    if x <= 0.0 {
      Product(s, -x);
    } else {
      ProductPositive(r - s, x);
    }
  }

  lemma NearGuardAgain(p: Params, sqrt: Root, x: real, k: nat)
    requires p.Valid() && IsRoot(sqrt)
    requires 0.0 <= Jumped(p, x, k).varc <= Sq(GUARD) && x - Jumped(p, x, k).mean > GUARD
    ensures !QuietFrom(p, sqrt, k)
    ensures Count(x) ==> !QuietOnCountsFrom(p, sqrt, k)
  {
    hide Jumped;
    SqMonotone(sqrt(Jumped(p, x, k).varc), GUARD);
    JumpAlertsAgain(p, sqrt, x, k);
  }

  /**
    When the `k`-th and all later repeats of a value stay quiet in every series: with
    w = (1 - alpha)^k, exactly when zThres^2 * (1 - w) > w and w <= 1/2. The second
    condition comes from the fixed guard on the deviation.
    */
  lemma RepeatsQuietIff(p: Params, sqrt: Root, k: nat)
    requires p.Valid() && IsRoot(sqrt) && k > 0
    ensures QuietFrom(p, sqrt, k) <==>
              var w := Pow(1.0 - p.alpha, k); Sq(p.zThres) * (1.0 - w) > w && w <= 0.5
  {
    hide Sq;
    hide QuietFrom;
    assert Faded(p.alpha, k) == 1.0 - Pow(1.0 - p.alpha, k);
    if Sq(p.zThres) * Faded(p.alpha, k) <= 1.0 - Faded(p.alpha, k) {
      LowThresholdAlertsAgain(p, sqrt, k);
    } else if Faded(p.alpha, k) < 0.5 {
      SlowFadingAlertsAgain(p, sqrt, k);
    } else {
      RepeatsAreQuiet(p, sqrt, k);
    }
  }

  /** In no series does a sample alert that equals the one before it. */
  ghost predicate OnlyChangesAlert(p: Params, sqrt: Root) {
    forall xs: seq<real>, i: int :: 0 < i < |xs| && AlertAt(p, sqrt, xs, i) ==> xs[i] != xs[i - 1]
  }

  /**
    So a run of one repeated value alerts at most on its first sample, in every series,
    exactly when zThres^2 * alpha > 1 - alpha and alpha >= 1/2.
    */
  lemma OnlyChangesAlertIff(p: Params, sqrt: Root)
    requires p.Valid() && IsRoot(sqrt)
    ensures OnlyChangesAlert(p, sqrt) <==> Sq(p.zThres) * p.alpha > 1.0 - p.alpha && p.alpha >= 0.5
  {
    hide Sq;
    RepeatsQuietIff(p, sqrt, 1);
    assert Pow(1.0 - p.alpha, 1) == (1.0 - p.alpha) * Pow(1.0 - p.alpha, 0);
    hide AlertAt;
    if OnlyChangesAlert(p, sqrt) {
      forall xs: seq<real>, i: int | 0 <= i < |xs| && Repeats(xs, i, 1)
        ensures !AlertAt(p, sqrt, xs, i)
      {
        assert xs[i - 1] == xs[i];
      }
    }
    if QuietFrom(p, sqrt, 1) {
      forall xs: seq<real>, i: int | 0 < i < |xs| && xs[i] == xs[i - 1]
        ensures !AlertAt(p, sqrt, xs, i)
      {
        assert Repeats(xs, i, 1);
      }
    }
  }

  /**
    When zThres^2 * alpha > 1 - alpha, a repeat alerts exactly when the series is warm, its
    standard deviation is at or below the guard, and the value is farther than that from the mean.
    */
  lemma RepeatAlertsIff(p: Params, sqrt: Root, xs: seq<real>, i: nat)
    requires p.Valid() && IsRoot(sqrt) && Sq(p.zThres) * p.alpha > 1.0 - p.alpha
    requires 0 < i < |xs| && xs[i] == xs[i - 1]
    ensures AlertAt(p, sqrt, xs, i) <==>
              var b := After(p, xs[..i]); i + 1 >= p.warmup && sqrt(b.varc) <= GUARD && Abs(xs[i] - b.mean) > GUARD
  {
    hide Quotient;
    hide Sq;
    hide After;
    hide Settled;
    var b := After(p, xs[..i]);
    VarianceNonNegative(p, xs[..i]);
    RepeatSettled(p, xs, i, 1);
    assert Pow(1.0 - p.alpha, 1) == (1.0 - p.alpha) * Pow(1.0 - p.alpha, 0);
    if sqrt(b.varc) > GUARD {
      RepeatAboveGuard(p, sqrt, b, xs[i], 1);
    }
  }

  /** Condition for counts: `w` is the share of a deviation that is left. */
  predicate SettlesCounts(zThres: real, w: real) {
    Sq(zThres) * (1.0 - w) > w && (w <= 0.5 || w * (1.0 - w) > Sq(GUARD))
  }

  lemma SettlesCountsByFading(zThres: real, q: real, w: real)
    requires q == 1.0 - w
    ensures SettlesCounts(zThres, w) <==> Sq(zThres) * q > 1.0 - q && (q >= 0.5 || q * (1.0 - q) > Sq(GUARD))
  {
    assert 1.0 - q == w && 1.0 - w == q;
  }

  /**
    On counts: the `k`-th and all later repeats stay quiet in every series, with
    w = (1 - alpha)^k, exactly when zThres^2 * (1 - w) > w and w <= 1/2 or w * (1 - w) is
    above the square of the guard.
    */
  lemma CountRepeatsQuietIff(p: Params, sqrt: Root, k: nat)
    requires p.Valid() && IsRoot(sqrt) && k > 0
    ensures QuietOnCountsFrom(p, sqrt, k) <==> SettlesCounts(p.zThres, Pow(1.0 - p.alpha, k))
  {
    hide *;
    FadedIsRest(p.alpha, k);
    CountRepeatsByFading(p, sqrt, k);
    SettlesCountsByFading(p.zThres, Faded(p.alpha, k), Pow(1.0 - p.alpha, k));
  }

  lemma FadedIsRest(alpha: real, k: nat)
    ensures Faded(alpha, k) == 1.0 - Pow(1.0 - alpha, k)
  {
  }

  lemma CountRepeatsByFading(p: Params, sqrt: Root, k: nat)
    requires p.Valid() && IsRoot(sqrt) && k > 0
    ensures QuietOnCountsFrom(p, sqrt, k) <==>
              && Sq(p.zThres) * Faded(p.alpha, k) > 1.0 - Faded(p.alpha, k)
              && (Faded(p.alpha, k) >= 0.5 || Faded(p.alpha, k) * (1.0 - Faded(p.alpha, k)) > Sq(GUARD))
  {
    hide *;
    if Sq(p.zThres) * Faded(p.alpha, k) <= 1.0 - Faded(p.alpha, k) {
      LowThresholdAlertsAgain(p, sqrt, k);
    } else if Faded(p.alpha, k) >= 0.5 {
      RepeatsAreQuiet(p, sqrt, k);
      QuietOnCountsToo(p, sqrt, k);
    } else if Faded(p.alpha, k) * (1.0 - Faded(p.alpha, k)) > Sq(GUARD) {
      CountsAreQuiet(p, sqrt, k);
    } else {
      StepToOneAlertsAgain(p, sqrt, k);
    }
  }

  lemma QuietOnCountsToo(p: Params, sqrt: Root, k: nat)
    requires QuietFrom(p, sqrt, k)
    ensures QuietOnCountsFrom(p, sqrt, k)
  {
  }

  /** A step from zero to one, when hardly anything of it has faded. */
  lemma StepToOneAlertsAgain(p: Params, sqrt: Root, k: nat)
    requires p.Valid() && IsRoot(sqrt) && k > 0
    requires Faded(p.alpha, k) < 0.5 && Faded(p.alpha, k) * (1.0 - Faded(p.alpha, k)) <= Sq(GUARD)
    ensures !QuietOnCountsFrom(p, sqrt, k)
  {
    var q := Faded(p.alpha, k);
    FadedBetween(p.alpha, k);
    JumpedShape(p, 1.0, k);
    Product(1.0 - q, q);
    hide Faded;
    hide Jumped;
    assert Jumped(p, 1.0, k).varc == (1.0 - q) * q && 1.0 - Jumped(p, 1.0, k).mean == 1.0 - q;
    NearGuardAgain(p, sqrt, 1.0, k);
  }

  /** With the deployed alpha 0.25 and threshold 3, no repeat of a count ever alerts. */
  lemma DeployedRepeats(sqrt: Root, warmup: int)
    requires IsRoot(sqrt)
    ensures QuietOnCountsFrom(Params(0.25, 3.0, warmup), sqrt, 1)
  {
    CountRepeatsQuietIff(Params(0.25, 3.0, warmup), sqrt, 1);
    assert Pow(0.75, 1) == 0.75 * Pow(0.75, 0);
    assert Sq(3.0) == 9.0 && Sq(GUARD) < 0.1;
  }
}
