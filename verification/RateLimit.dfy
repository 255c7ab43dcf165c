/**
  The per-key token bucket with lazy refill, in exact reals; times are in seconds and
  clock readings are inputs.
  */
module RateLimit {
  import opened Text

  datatype Limits = Limits(rate: real, burst: int, ttl: real)

  datatype Bucket = Bucket(tokens: real, lastSeen: real)

  /** Tokens added in `elapsed` seconds. */
  function Earned(l: Limits, elapsed: real): real {
    elapsed * l.rate
  }

  function Refilled(l: Limits, b: Bucket, now: real): real {
    var t := b.tokens + Earned(l, now - b.lastSeen);
    if t > l.burst as real then l.burst as real else t
  }

  /** One request against the bucket of its key: the bucket afterwards, and the answer. */
  function Take(l: Limits, b: Option<Bucket>, now: real): (Bucket, bool) {
    match b
    case None => (Bucket(l.burst as real - 1.0, now), true)
    case Some(b) =>
      var t := Refilled(l, b, now);
      if t >= 1.0 then (Bucket(t - 1.0, now), true) else (Bucket(t, now), false)
  }

  predicate Stale(l: Limits, b: Bucket, now: real) {
    b.lastSeen < now - l.ttl
  }

  function Lookup(buckets: map<string, Bucket>, key: string): Option<Bucket> {
    if key in buckets then Some(buckets[key]) else None
  }

  datatype Event = Call(key: string, now: real) | Sweep(now: real)

  /** What one call, or one sweep, does to all buckets. */
  function Step(l: Limits, buckets: map<string, Bucket>, e: Event): map<string, Bucket> {
    match e
    case Call(key, now) => buckets[key := Take(l, Lookup(buckets, key), now).0]
    case Sweep(now) => map k | k in buckets && !Stale(l, buckets[k], now) :: buckets[k]
  }

  class Limiter {
    const limits: Limits
    var buckets: map<string, Bucket>

    constructor (ratePerSec: real, burst: int)
      ensures limits == Limits(ratePerSec, burst, 600.0) && buckets == map[]
    {
      limits := Limits(ratePerSec, burst, 600.0);
      buckets := map[];
    }

    method Allow(key: string, now: real) returns (ok: bool)
      modifies this
      ensures ok == Take(limits, Lookup(old(buckets), key), now).1
      ensures buckets == Step(limits, old(buckets), Call(key, now))
    {
      hide Earned;
      if key !in buckets {
        buckets := buckets[key := Bucket(limits.burst as real - 1.0, now)];
        return true;
      }
      var b := buckets[key];
      var elapsed := now - b.lastSeen;
      b := b.(tokens := b.tokens + Earned(limits, elapsed));
      if b.tokens > limits.burst as real {
        b := b.(tokens := limits.burst as real);
      }
      b := b.(lastSeen := now);
      ok := b.tokens >= 1.0;
      if ok {
        b := b.(tokens := b.tokens - 1.0);
      }
      buckets := buckets[key := b];
    }

    /** Removes the stale buckets, in any order, and no others. */
    method Sweep(now: real)
      modifies this
      ensures buckets == Step(limits, old(buckets), Event.Sweep(now))
      ensures forall k :: k in buckets <==> k in old(buckets) && now - old(buckets)[k].lastSeen <= limits.ttl
    {
      var keys := buckets.Keys;
      while keys != {}
        invariant forall k :: k in buckets <==>
                    k in old(buckets) && (k in keys || !Stale(limits, old(buckets)[k], now))
        invariant forall k :: k in buckets ==> buckets[k] == old(buckets)[k]
        invariant keys <= buckets.Keys
      {
        var k :| k in keys;
        keys := keys - {k};
        if buckets[k].lastSeen < now - limits.ttl {
          buckets := buckets - {k};
        }
      }
    }
  }

  // ----- runs -----

  /** All buckets after a run. */
  function Buckets(l: Limits, run: seq<Event>): map<string, Bucket> {
    if run == [] then map[] else Step(l, Buckets(l, run[..|run| - 1]), run[|run| - 1])
  }

  /** What one key goes through: its own calls, and every sweep. */
  function ForKey(key: string, run: seq<Event>): seq<Event> {
    if run == [] then []
    else
      var rest, e := ForKey(key, run[..|run| - 1]), run[|run| - 1];
      if e.Sweep? || e.key == key then rest + [e] else rest
  }

  function KeyStep(l: Limits, b: Option<Bucket>, e: Event): Option<Bucket> {
    match e
    case Call(_, now) => Some(Take(l, b, now).0)
    case Sweep(now) => if b.Some? && Stale(l, b.value, now) then None else b
  }

  /** The bucket of one key, computed from that key's events only. */
  function After(l: Limits, run: seq<Event>): Option<Bucket> {
    if run == [] then None else KeyStep(l, After(l, run[..|run| - 1]), run[|run| - 1])
  }

  /** The answers one key gets in a run of all keys. */
  function AnswersTo(l: Limits, run: seq<Event>, key: string): seq<bool> {
    if run == [] then []
    else
      var n := |run| - 1;
      var rest := AnswersTo(l, run[..n], key);
      if run[n].Call? && run[n].key == key
      then rest + [Take(l, Lookup(Buckets(l, run[..n]), key), run[n].now).1] else rest
  }

  /** The answers in a run of one key. */
  function Answers(l: Limits, run: seq<Event>): seq<bool> {
    if run == [] then []
    else
      var n := |run| - 1;
      var rest := Answers(l, run[..n]);
      if run[n].Call? then rest + [Take(l, After(l, run[..n]), run[n].now).1] else rest
  }

  /** What a key finds in its bucket, and what it is answered, does not depend on the other keys. */
  lemma {:induction false} KeyAlone(l: Limits, run: seq<Event>, key: string)
    ensures Lookup(Buckets(l, run), key) == After(l, ForKey(key, run))
    ensures AnswersTo(l, run, key) == Answers(l, ForKey(key, run))
  {
    hide Take;
    if run != [] {
      var n := |run| - 1;
      KeyAlone(l, run[..n], key);
      var rest := ForKey(key, run[..n]);
      if run[n].Sweep? || run[n].key == key {
        assert (rest + [run[n]])[..|rest|] == rest;
      }
    }
  }

  // ----- the rate bound -----

  function BucketOf(l: Limits, run: seq<Event>, key: string): Option<Bucket> {
    Lookup(Buckets(l, run), key)
  }

  predicate IsCall(e: Event, key: string) {
    e.Call? && e.key == key
  }

  /** The answer to call `i`. */
  predicate Answer(l: Limits, run: seq<Event>, i: nat)
    requires i < |run| && run[i].Call?
  {
    Take(l, BucketOf(l, run[..i], run[i].key), run[i].now).1
  }

  /** How many calls of a key among events `i` to `j - 1` were allowed. */
  function Allowed(l: Limits, run: seq<Event>, key: string, i: nat, j: nat): nat
    requires i <= j <= |run|
  {
    if i == j then 0
    else Allowed(l, run, key, i, j - 1) + if IsCall(run[j - 1], key) && Answer(l, run, j - 1) then 1 else 0
  }

  predicate Evicts(l: Limits, run: seq<Event>, key: string, k: nat)
    requires k < |run|
  {
    BucketOf(l, run[..k], key).Some? && BucketOf(l, run[..k + 1], key) == None
  }

  /** No sweep among events `i` to `j - 1` removes the bucket. */
  predicate Kept(l: Limits, run: seq<Event>, key: string, i: nat, j: nat)
    requires i <= j <= |run|
  {
    forall k :: i <= k < j && run[k].Sweep? ==> !Evicts(l, run, key, k)
  }

  /** What one more event does to the bucket of a key. */
  lemma BucketNext(l: Limits, run: seq<Event>, key: string, j: nat)
    requires j < |run|
    ensures BucketOf(l, run[..j + 1], key)
         == if run[j].Sweep? || run[j].key == key then KeyStep(l, BucketOf(l, run[..j], key), run[j])
            else BucketOf(l, run[..j], key)
  {
    hide Take;
    assert run[..j + 1][..j] == run[..j];
  }

  function Potential(l: Limits, b: Bucket): real {
    b.tokens - Earned(l, b.lastSeen)
  }

  lemma EarnedBetween(l: Limits, since: real, until: real)
    ensures Earned(l, until - since) == Earned(l, until) - Earned(l, since)
    ensures l.rate >= 0.0 && since <= until ==> Earned(l, until - since) >= 0.0
  {
    if l.rate >= 0.0 && since <= until {
      var d := until - since;
      assert d * l.rate >= 0.0;
    }
  }

  /** A call never raises the potential, and an allowed one lowers it by at least one, whatever the clock reads. */
  lemma PotentialFalls(l: Limits, b: Bucket, now: real)
    ensures var r := Take(l, Some(b), now);
            Potential(l, r.0) <= Potential(l, b) - if r.1 then 1.0 else 0.0
  {
    EarnedBetween(l, b.lastSeen, now);
    hide Earned;
  }

  /** After the first call of a window the potential is at most that of a full bucket. */
  lemma PotentialStarts(l: Limits, b: Option<Bucket>, now: real)
    ensures var r := Take(l, b, now);
            Potential(l, r.0) <= l.burst as real - Earned(l, now) - if r.1 then 1.0 else 0.0
  {
    hide Earned;
  }

  lemma {:induction false} WindowPotential(l: Limits, run: seq<Event>, key: string, i: nat, j: nat)
    requires i < j <= |run| && IsCall(run[i], key) && Kept(l, run, key, i, j)
    ensures BucketOf(l, run[..j], key).Some?
    ensures Potential(l, BucketOf(l, run[..j], key).value)
         <= l.burst as real - Earned(l, run[i].now) - Allowed(l, run, key, i, j) as real
    decreases j
  {
    hide Earned;
    hide Take;
    hide BucketOf;
    hide Potential;
    BucketNext(l, run, key, j - 1);
    if j == i + 1 {
      PotentialStarts(l, BucketOf(l, run[..i], key), run[i].now);
      assert Allowed(l, run, key, i, i) == 0;
    } else {
      WindowPotential(l, run, key, i, j - 1);
      if IsCall(run[j - 1], key) {
        PotentialFalls(l, BucketOf(l, run[..j - 1], key).value, run[j - 1].now);
      }
    }
  }

  /** From the call at `i` to the call at `j` at most burst + rate * (elapsed time) calls are allowed. */
  predicate WithinRate(l: Limits, run: seq<Event>, i: nat, j: nat)
    requires i <= j < |run| && run[i].Call?
  {
    Allowed(l, run, run[i].key, i, j + 1) as real <= l.burst as real + Earned(l, run[j].now - run[i].now)
  }

  /** Two calls of one key, the later one allowed. */
  predicate Window(l: Limits, run: seq<Event>, i: int, j: int) {
    0 <= i <= j < |run| && run[i].Call? && IsCall(run[j], run[i].key) && Answer(l, run, j)
  }

  lemma RateBounded(l: Limits, run: seq<Event>, i: nat, j: nat)
    requires l.burst >= 1 && Window(l, run, i, j) && Kept(l, run, run[i].key, i, j)
    ensures WithinRate(l, run, i, j)
  {
    hide BucketOf;
    hide Allowed;
    hide Earned;
    var b := LastAllowed(l, run, j);
    WindowPotential(l, run, run[i].key, i, j + 1);
    EarnedBetween(l, run[i].now, run[j].now);
  }

  /** The bucket after an allowed call. */
  lemma LastAllowed(l: Limits, run: seq<Event>, j: nat) returns (b: Bucket)
    requires l.burst >= 1 && j < |run| && run[j].Call? && Answer(l, run, j)
    ensures BucketOf(l, run[..j + 1], run[j].key) == Some(b) && b.tokens >= 0.0 && b.lastSeen == run[j].now
  {
    BucketNext(l, run, run[j].key, j);
    hide BucketOf;
    b := BucketOf(l, run[..j + 1], run[j].key).value;
    AllowedLeavesTokens(l, BucketOf(l, run[..j], run[j].key), run[j].now);
  }

  lemma AllowedLeavesTokens(l: Limits, b: Option<Bucket>, now: real)
    requires l.burst >= 1 && Take(l, b, now).1
    ensures Take(l, b, now).0.tokens >= 0.0 && Take(l, b, now).0.lastSeen == now
  {
    hide Earned;
  }

  ghost predicate AlwaysBounded(l: Limits) {
    forall run: seq<Event>, i, j :: Window(l, run, i, j) && Kept(l, run, run[i].key, i, j) ==> WithinRate(l, run, i, j)
  }

  /**
    In every run of all keys, with clock readings in any order, every window in which the
    bucket is kept obeys the bound, exactly when the burst allowance is at least one.
    */
  lemma RateBoundIff(l: Limits)
    ensures AlwaysBounded(l) <==> l.burst >= 1
  {
    if l.burst >= 1 {
      forall run: seq<Event>, i, j | Window(l, run, i, j) && Kept(l, run, run[i].key, i, j)
        ensures WithinRate(l, run, i, j)
      {
        RateBounded(l, run, i, j);
      }
    } else {
      var run := OneCallTooMany(l);
    }
  }

  lemma OneCallTooMany(l: Limits) returns (run: seq<Event>)
    requires l.burst < 1
    ensures Window(l, run, 0, 0) && Kept(l, run, run[0].key, 0, 0) && !WithinRate(l, run, 0, 0)
    ensures forall i, j :: 0 <= i <= j < |run| ==> run[i].now <= run[j].now
  {
    run := [Call("", 0.0)];
    assert run[..0] == [] && Answer(l, run, 0);
    assert Allowed(l, run, "", 0, 1) == Allowed(l, run, "", 0, 0) + 1;
    assert Earned(l, 0.0) == 0.0;
  }

  // ----- when a call is refused -----

  /** The potential of a bucket is that of a full one at an earlier call, less what was allowed since. */
  predicate Accounted(l: Limits, run: seq<Event>, key: string, i: nat, j: nat)
    requires j <= |run|
  {
    && i < j && IsCall(run[i], key) && Kept(l, run, key, i, j)
    && BucketOf(l, run[..j], key).Some?
    && Potential(l, BucketOf(l, run[..j], key).value)
       == l.burst as real - Earned(l, run[i].now) - Allowed(l, run, key, i, j) as real
  }

  /** A call on a bucket that is new, or full when refilled. */
  lemma StartsFull(l: Limits, b: Option<Bucket>, now: real)
    requires l.burst >= 1 && (b.Some? ==> Refilled(l, b.value, now) == l.burst as real)
    ensures var r := Take(l, b, now);
            r.1 && Potential(l, r.0) == l.burst as real - Earned(l, now) - 1.0
  {
    hide Earned;
  }

  /** A call on a bucket that is not full keeps what was earned, and pays for itself when allowed. */
  lemma PaysExactly(l: Limits, b: Bucket, now: real)
    requires Refilled(l, b, now) != l.burst as real
    ensures var r := Take(l, Some(b), now);
            && Potential(l, r.0) == Potential(l, b) - (if r.1 then 1.0 else 0.0)
            && (r.1 <==> Potential(l, b) + Earned(l, now) >= 1.0)
  {
    EarnedBetween(l, b.lastSeen, now);
    hide Earned;
  }

  lemma KeptNext(l: Limits, run: seq<Event>, key: string, i: nat, j: nat)
    requires i < j <= |run| && Kept(l, run, key, i, j - 1)
    requires run[j - 1].Sweep? ==> BucketOf(l, run[..j], key).Some?
    ensures Kept(l, run, key, i, j)
  {
    hide BucketOf;
  }

  lemma AccountedFromHere(l: Limits, run: seq<Event>, key: string, j: nat)
    requires l.burst >= 1 && 0 < j <= |run| && IsCall(run[j - 1], key)
    requires var b := BucketOf(l, run[..j - 1], key);
             b.Some? ==> Refilled(l, b.value, run[j - 1].now) == l.burst as real
    ensures Accounted(l, run, key, j - 1, j)
  {
    BucketNext(l, run, key, j - 1);
    StartsFull(l, BucketOf(l, run[..j - 1], key), run[j - 1].now);
    assert Allowed(l, run, key, j - 1, j - 1) == 0;
    hide BucketOf;
    hide Take;
    hide Earned;
    hide Refilled;
    hide Potential;
  }

  lemma AccountedLater(l: Limits, run: seq<Event>, key: string, i: nat, j: nat)
    requires 0 < j <= |run| && Accounted(l, run, key, i, j - 1) && BucketOf(l, run[..j], key).Some?
    requires IsCall(run[j - 1], key) ==>
               Refilled(l, BucketOf(l, run[..j - 1], key).value, run[j - 1].now) != l.burst as real
    ensures Accounted(l, run, key, i, j)
  {
    BucketNext(l, run, key, j - 1);
    KeptNext(l, run, key, i, j);
    hide BucketOf;
    hide Kept;
    if IsCall(run[j - 1], key) {
      PaysExactly(l, BucketOf(l, run[..j - 1], key).value, run[j - 1].now);
    }
    hide Take;
    hide Earned;
    hide Refilled;
    hide Potential;
    hide Stale;
  }

  /** Every bucket is accounted for since the last call that found it full or new. */
  lemma {:induction false} BucketAccounted(l: Limits, run: seq<Event>, key: string, j: nat) returns (i: nat)
    requires l.burst >= 1 && j <= |run| && BucketOf(l, run[..j], key).Some?
    ensures Accounted(l, run, key, i, j)
  {
    i := 0;
    if j == 0 {
      NoBucket(l, run, key);
    } else {
      BucketNext(l, run, key, j - 1);
      var b := BucketOf(l, run[..j - 1], key);
      hide BucketOf;
      hide Accounted;
      hide Refilled;
      hide Take;
      if IsCall(run[j - 1], key) && (b.None? || Refilled(l, b.value, run[j - 1].now) == l.burst as real) {
        AccountedFromHere(l, run, key, j);
        i := j - 1;
      } else {
        i := BucketAccounted(l, run, key, j - 1);
        AccountedLater(l, run, key, i, j);
      }
    }
  }

  /** Since its call at `i` the key has been allowed more than the burst and the time passed leave for a call at `j`. */
  predicate Overspent(l: Limits, run: seq<Event>, i: nat, j: nat)
    requires j < |run| && run[j].Call?
  {
    && i < j && IsCall(run[i], run[j].key) && Kept(l, run, run[j].key, i, j)
    && Allowed(l, run, run[j].key, i, j) as real > l.burst as real + Earned(l, run[j].now - run[i].now) - 1.0
  }

  lemma RefusedWhenOverspent(l: Limits, run: seq<Event>, i: nat, j: nat)
    requires l.burst >= 1 && j < |run| && run[j].Call? && Overspent(l, run, i, j)
    ensures !Answer(l, run, j)
  {
    var key := run[j].key;
    WindowPotential(l, run, key, i, j);
    EarnedBetween(l, run[i].now, run[j].now);
    EarnedBetween(l, BucketOf(l, run[..j], key).value.lastSeen, run[j].now);
    hide Earned;
    hide BucketOf;
    hide Allowed;
  }

  lemma OverspentWhenRefused(l: Limits, run: seq<Event>, j: nat) returns (i: nat)
    requires l.burst >= 1 && j < |run| && run[j].Call? && !Answer(l, run, j)
    ensures Overspent(l, run, i, j)
  {
    var key := run[j].key;
    var b := BucketOf(l, run[..j], key);
    assert b.Some?;
    i := BucketAccounted(l, run, key, j);
    hide BucketOf;
    PaysExactly(l, b.value, run[j].now);
    EarnedBetween(l, run[i].now, run[j].now);
    hide Earned;
    hide Potential;
    hide Allowed;
  }

  /**
    In every run of all keys, with clock readings in any order: a call is refused exactly when
    since some earlier call of the key, its bucket kept, more than burst + rate * (elapsed
    time) - 1 calls have been allowed. So no allowance is withheld, and none is granted twice.
    */
  lemma RefusedIff(l: Limits, run: seq<Event>, j: nat)
    requires l.burst >= 1 && j < |run| && run[j].Call?
    ensures !Answer(l, run, j) <==> exists i :: Overspent(l, run, i, j)
  {
    if !Answer(l, run, j) {
      var i := OverspentWhenRefused(l, run, j);
    }
    if i: nat :| Overspent(l, run, i, j) {
      RefusedWhenOverspent(l, run, i, j);
    }
  }

  // ----- sweeping -----

  function WithoutSweeps(run: seq<Event>): seq<Event> {
    if run == [] then []
    else
      var rest, e := WithoutSweeps(run[..|run| - 1]), run[|run| - 1];
      if e.Call? then rest + [e] else rest
  }

  /** Time does not run backwards. */
  predicate Monotone(run: seq<Event>) {
    forall i, j :: 0 <= i <= j < |run| ==> run[i].now <= run[j].now
  }

  /** A swept bucket `s` and its unswept twin `u` answer alike from time `now` on. */
  ghost predicate Alike(l: Limits, s: Option<Bucket>, u: Option<Bucket>, now: real) {
    && (u.Some? ==> u.value.tokens >= 0.0 && u.value.lastSeen <= now)
    && (s == u || (s == None && u.Some? && Earned(l, now - u.value.lastSeen) >= l.burst as real))
  }

  lemma AlikeLater(l: Limits, s: Option<Bucket>, u: Option<Bucket>, now: real, later: real)
    requires l.rate >= 0.0 && Alike(l, s, u, now) && now <= later
    ensures Alike(l, s, u, later)
  {
    hide Earned;
    if s != u {
      EarnedBetween(l, u.value.lastSeen, now);
      EarnedBetween(l, u.value.lastSeen, later);
      EarnedBetween(l, now, later);
    }
  }

  lemma RefillKeeps(l: Limits, b: Bucket, now: real)
    requires l.rate >= 0.0 && l.burst >= 1 && b.tokens >= 0.0 && b.lastSeen <= now
    ensures Refilled(l, b, now) >= 0.0
    ensures Earned(l, now - b.lastSeen) >= l.burst as real ==> Refilled(l, b, now) == l.burst as real
  {
    hide Earned;
    EarnedBetween(l, b.lastSeen, now);
  }

  lemma AlikeCall(l: Limits, s: Option<Bucket>, u: Option<Bucket>, now: real)
    requires l.rate >= 0.0 && l.burst >= 1 && Alike(l, s, u, now)
    ensures Take(l, s, now) == Take(l, u, now)
    ensures Alike(l, Some(Take(l, s, now).0), Some(Take(l, u, now).0), now)
  {
    hide Earned;
    if u.Some? {
      RefillKeeps(l, u.value, now);
    }
  }

  lemma AlikeSweep(l: Limits, s: Option<Bucket>, u: Option<Bucket>, now: real)
    requires l.rate >= 0.0 && Earned(l, l.ttl) >= l.burst as real && Alike(l, s, u, now)
    ensures Alike(l, if s.Some? && Stale(l, s.value, now) then None else s, u, now)
  {
    hide Earned;
    if s.Some? && Stale(l, s.value, now) {
      EarnedBetween(l, l.ttl, now - s.value.lastSeen);
    }
  }

  lemma {:induction false} SweepsUnseen(l: Limits, run: seq<Event>)
    requires l.rate >= 0.0 && l.burst >= 1 && Earned(l, l.ttl) >= l.burst as real
    requires Monotone(run)
    ensures Answers(l, run) == Answers(l, WithoutSweeps(run))
    ensures run != [] ==> Alike(l, After(l, run), After(l, WithoutSweeps(run)), run[|run| - 1].now)
  {
    hide Earned;
    hide Take;
    if run != [] {
      var n := |run| - 1;
      var before, e := run[..n], run[n];
      SweepsUnseen(l, before);
      var s, u := After(l, before), After(l, WithoutSweeps(before));
      if n > 0 {
        assert run[n - 1].now <= e.now;
        AlikeLater(l, s, u, run[n - 1].now, e.now);
      }
      var plain := WithoutSweeps(before);
      if e.Call? {
        assert (plain + [e])[..|plain|] == plain;
        AlikeCall(l, s, u, e.now);
      } else {
        AlikeSweep(l, s, u, e.now);
      }
    }
  }

  /** In runs of all keys, every key is answered as if there were no sweeps. */
  ghost predicate SweepingUnobservable(l: Limits) {
    forall run: seq<Event>, key: string :: Monotone(run) ==>
      AnswersTo(l, run, key) == AnswersTo(l, WithoutSweeps(run), key)
  }

  /** Leaving out the sweeps and leaving out the other keys can be done in either order. */
  lemma {:induction false} ForKeyWithoutSweeps(key: string, run: seq<Event>)
    ensures ForKey(key, WithoutSweeps(run)) == WithoutSweeps(ForKey(key, run))
  {
    if run != [] {
      var n := |run| - 1;
      ForKeyWithoutSweeps(key, run[..n]);
      var plain, own := WithoutSweeps(run[..n]), ForKey(key, run[..n]);
      assert (plain + [run[n]])[..|plain|] == plain;
      assert (own + [run[n]])[..|own|] == own;
    }
  }

  lemma {:induction false} ForKeyMonotone(key: string, run: seq<Event>)
    requires Monotone(run)
    ensures Monotone(ForKey(key, run))
    ensures forall i :: 0 <= i < |ForKey(key, run)| ==> ForKey(key, run)[i].now <= run[|run| - 1].now
  {
    if run != [] {
      var n := |run| - 1;
      ForKeyMonotone(key, run[..n]);
      assert n > 0 ==> run[n - 1].now <= run[n].now;
    }
  }

  lemma {:induction false} OneKey(key: string, run: seq<Event>)
    requires forall i :: 0 <= i < |run| && run[i].Call? ==> run[i].key == key
    ensures ForKey(key, run) == run
  {
    if run != [] {
      OneKey(key, run[..|run| - 1]);
    }
  }

  lemma SweepsUnseenByAll(l: Limits, run: seq<Event>, key: string)
    requires l.rate >= 0.0 && l.burst >= 1 && Earned(l, l.ttl) >= l.burst as real
    requires Monotone(run)
    ensures AnswersTo(l, run, key) == AnswersTo(l, WithoutSweeps(run), key)
  {
    hide Earned;
    KeyAlone(l, run, key);
    KeyAlone(l, WithoutSweeps(run), key);
    ForKeyWithoutSweeps(key, run);
    ForKeyMonotone(key, run);
    SweepsUnseen(l, ForKey(key, run));
  }

  function Calls(t: real, n: nat): (run: seq<Event>)
    ensures |run| == n && forall i :: 0 <= i < n ==> run[i] == Call("", t)
  {
    if n == 0 then [] else Calls(t, n - 1) + [Call("", t)]
  }

  predicate AllTrue(a: seq<bool>) {
    forall i :: 0 <= i < |a| ==> a[i]
  }

  /** Tokens left for calls at time `t`. */
  function Left(l: Limits, b: Option<Bucket>, t: real): real {
    if b == None then l.burst as real else Refilled(l, b.value, t)
  }

  lemma TakeAtOnce(l: Limits, b: Option<Bucket>, t: real)
    requires l.burst >= 1
    ensures var left := Left(l, b, t);
            && Take(l, b, t).1 == (left >= 1.0)
            && (left >= 1.0 ==> Take(l, b, t).0 == Bucket(left - 1.0, t))
            && left <= l.burst as real
  {
    hide Earned;
  }

  lemma LeftAtOnce(l: Limits, tokens: real, t: real)
    requires tokens <= l.burst as real
    ensures Left(l, Some(Bucket(tokens, t)), t) == tokens
  {
    EarnedBetween(l, t, t);
  }

  lemma OneMore(l: Limits, run: seq<Event>, e: Event)
    ensures After(l, run + [e]) == KeyStep(l, After(l, run), e)
    ensures Answers(l, run + [e])
         == if e.Call? then Answers(l, run) + [Take(l, After(l, run), e.now).1] else Answers(l, run)
    ensures WithoutSweeps(run + [e]) == if e.Call? then WithoutSweeps(run) + [e] else WithoutSweeps(run)
  {
    assert (run + [e])[..|run|] == run;
  }

  lemma CallsOneMore(l: Limits, run: seq<Event>, t: real, n: nat)
    requires n > 0
    ensures var before := run + Calls(t, n - 1);
            && After(l, run + Calls(t, n)) == Some(Take(l, After(l, before), t).0)
            && (AllTrue(Answers(l, run + Calls(t, n))) <==>
                  AllTrue(Answers(l, before)) && Take(l, After(l, before), t).1)
  {
    var before := run + Calls(t, n - 1);
    assert run + Calls(t, n) == before + [Call("", t)];
    OneMore(l, before, Call("", t));
    LastTrue(Answers(l, before), Take(l, After(l, before), t).1);
  }

  /** Calls at one moment are all allowed exactly as long as the tokens last. */
  lemma {:induction false} CallsAtOnce(l: Limits, run: seq<Event>, t: real, n: nat)
    requires l.burst >= 1 && n > 0
    ensures AllTrue(Answers(l, run + Calls(t, n))) <==>
              AllTrue(Answers(l, run)) && Left(l, After(l, run), t) >= n as real
    ensures AllTrue(Answers(l, run + Calls(t, n))) ==>
              After(l, run + Calls(t, n)) == Some(Bucket(Left(l, After(l, run), t) - n as real, t))
  {
    hide Earned;
    hide Take;
    hide Left;
    var left := Left(l, After(l, run), t);
    CallsOneMore(l, run, t, n);
    TakeAtOnce(l, After(l, run), t);
    if n == 1 {
      assert run + Calls(t, 0) == run;
    } else {
      CallsAtOnce(l, run, t, n - 1);
      var before := run + Calls(t, n - 1);
      if AllTrue(Answers(l, before)) {
        LeftAtOnce(l, left - (n - 1) as real, t);
        TakeAtOnce(l, After(l, before), t);
      }
    }
  }

  lemma LastTrue(a: seq<bool>, b: bool)
    ensures AllTrue(a + [b]) <==> AllTrue(a) && b
  {
    assert (a + [b])[|a|] == b;
    if AllTrue(a + [b]) {
      assert forall i :: 0 <= i < |a| ==> (a + [b])[i] == a[i];
    }
  }

  lemma {:induction false} PlainCalls(run: seq<Event>)
    requires forall i :: 0 <= i < |run| ==> run[i].Call?
    ensures WithoutSweeps(run) == run
  {
    if run != [] {
      PlainCalls(run[..|run| - 1]);
    }
  }

  lemma {:induction false} WithoutSweepsConcat(a: seq<Event>, b: seq<Event>)
    ensures WithoutSweeps(a + b) == WithoutSweeps(a) + WithoutSweeps(b)
  {
    if b == [] {
      assert a + b == a;
    } else {
      assert (a + b)[..|a + b| - 1] == a + b[..|b| - 1];
      WithoutSweepsConcat(a, b[..|b| - 1]);
    }
  }

  /** Drain the bucket, sweep just after the time to live, and ask for a full burst again. */
  lemma SweepSeen(l: Limits, t: real)
    requires l.burst >= 1 && t > l.ttl >= 0.0 && Earned(l, t) < l.burst as real
    ensures !SweepingUnobservable(l)
  {
    var first, second := Calls(0.0, l.burst), Calls(t, l.burst);
    SecondBurst(l, t);
    BurstsInOrder(l.burst, t);
    BurstsPlain(l.burst, t);
    hide *;
    Differ(l, first + [Sweep(t)] + second);
  }

  lemma BurstsInOrder(n: nat, t: real)
    requires t >= 0.0
    ensures var run := Calls(0.0, n) + [Sweep(t)] + Calls(t, n);
            Monotone(run) && forall i :: 0 <= i < |run| && run[i].Call? ==> run[i].key == ""
  {
  }

  lemma BurstsPlain(n: nat, t: real)
    ensures WithoutSweeps(Calls(0.0, n) + [Sweep(t)] + Calls(t, n)) == Calls(0.0, n) + Calls(t, n)
  {
    var first, second := Calls(0.0, n), Calls(t, n);
    PlainCalls(first);
    PlainCalls(second);
    PlainThenSweep(first, t);
    hide *;
    WithoutSweepsConcat(first + [Sweep(t)], second);
  }

  lemma PlainThenSweep(run: seq<Event>, t: real)
    requires WithoutSweeps(run) == run
    ensures WithoutSweeps(run + [Sweep(t)]) == run
  {
    assert (run + [Sweep(t)])[..|run|] == run;
  }

  /** With the sweep the second burst is allowed in full; without it, it is not. */
  lemma SecondBurst(l: Limits, t: real)
    requires l.burst >= 1 && t > l.ttl >= 0.0 && Earned(l, t) < l.burst as real
    ensures var first, second := Calls(0.0, l.burst), Calls(t, l.burst);
            && AllTrue(Answers(l, first + [Sweep(t)] + second))
            && !AllTrue(Answers(l, first + second))
  {
    var first := Calls(0.0, l.burst);
    FirstBurst(l);
    OneMore(l, first, Sweep(t));
    hide After;
    hide Answers;
    hide Earned;
    hide Refilled;
    CallsAtOnce(l, first + [Sweep(t)], t, l.burst);
    RefillFromEmpty(l, t);
    CallsAtOnce(l, first, t, l.burst);
  }

  /** A full burst is allowed, and drains the bucket. */
  lemma FirstBurst(l: Limits)
    requires l.burst >= 1
    ensures AllTrue(Answers(l, Calls(0.0, l.burst)))
    ensures After(l, Calls(0.0, l.burst)) == Some(Bucket(0.0, 0.0))
  {
    var first := Calls(0.0, l.burst);
    assert Left(l, After(l, []), 0.0) == l.burst as real && AllTrue(Answers(l, []));
    assert [] + first == first;
    hide *;
    CallsAtOnce(l, [], 0.0, l.burst);
  }

  lemma RefillFromEmpty(l: Limits, t: real)
    requires Earned(l, t) < l.burst as real
    ensures Left(l, Some(Bucket(0.0, 0.0)), t) < l.burst as real
  {
    EarnedBetween(l, 0.0, t);
    assert Earned(l, 0.0) == 0.0;
  }

  /** A run of one key that is answered differently with and without its sweeps. */
  lemma Differ(l: Limits, run: seq<Event>)
    requires Monotone(run) && (forall i :: 0 <= i < |run| && run[i].Call? ==> run[i].key == "")
    requires AllTrue(Answers(l, run)) && !AllTrue(Answers(l, WithoutSweeps(run)))
    ensures !SweepingUnobservable(l)
  {
    OneKey("", run);
    ForKeyWithoutSweeps("", run);
    KeyAlone(l, run, "");
    KeyAlone(l, WithoutSweeps(run), "");
  }

  lemma SweepSeenWithoutBurst(l: Limits)
    requires l.burst < 1 && l.ttl >= 0.0
    ensures !SweepingUnobservable(l)
  {
    var t := l.ttl + 1.0;
    var run := [Call("", 0.0)] + [Sweep(t)] + [Call("", t)];
    FirstOfEmpty(l, t);
    assert Monotone(run) && forall i :: 0 <= i < |run| && run[i].Call? ==> run[i].key == "";
    hide *;
    Differ(l, run);
  }

  /** Without a burst allowance only a new bucket admits a call. */
  lemma FirstOfEmpty(l: Limits, t: real)
    requires l.burst < 1 && t > l.ttl >= 0.0
    ensures var c, s, d := Call("", 0.0), Sweep(t), Call("", t);
            && AllTrue(Answers(l, [c] + [s] + [d]))
            && !AllTrue(Answers(l, WithoutSweeps([c] + [s] + [d])))
  {
    var c, s, d := Call("", 0.0), Sweep(t), Call("", t);
    var b := Bucket(l.burst as real - 1.0, 0.0);
    assert [] + [c] == [c] && After(l, []) == None && Answers(l, []) == [] && WithoutSweeps([]) == [];
    OneMore(l, [], c);
    OneMore(l, [c], s);
    OneMore(l, [c] + [s], d);
    OneMore(l, [c], d);
    OverdrawnRefuses(l, b, t);
    hide After;
    hide Answers;
    hide WithoutSweeps;
    LastTrue([true], false);
    LastTrue([true], true);
    hide Refilled;
    hide AllTrue;
  }

  lemma OverdrawnRefuses(l: Limits, b: Bucket, now: real)
    requires l.burst < 1
    ensures !Take(l, Some(b), now).1
  {
    hide Earned;
  }

  /**
    Sweeping can never be told from the answers exactly when a bucket that is idle for the
    time to live is full again and a full bucket admits a call.
    */
  lemma SweepingUnobservableIff(l: Limits)
    requires l.rate >= 0.0 && l.ttl >= 0.0
    ensures SweepingUnobservable(l) <==> l.burst >= 1 && Earned(l, l.ttl) >= l.burst as real
  {
    if l.burst < 1 {
      SweepSeenWithoutBurst(l);
    } else if Earned(l, l.ttl) >= l.burst as real {
      forall run: seq<Event>, key: string | Monotone(run)
        ensures AnswersTo(l, run, key) == AnswersTo(l, WithoutSweeps(run), key)
      {
        SweepsUnseenByAll(l, run, key);
      }
    } else {
      var t := JustAfter(l);
      SweepSeen(l, t);
    }
  }

  lemma JustAfter(l: Limits) returns (t: real)
    requires l.rate >= 0.0 && Earned(l, l.ttl) < l.burst as real
    ensures t > l.ttl && Earned(l, t) < l.burst as real
  {
    var gap := l.burst as real - Earned(l, l.ttl);
    var extra := gap / (l.rate + 1.0) / 2.0;
    assert extra > 0.0 && extra * 2.0 * (l.rate + 1.0) == gap;
    assert extra * l.rate < gap;
    t := l.ttl + extra;
    assert t * l.rate == l.ttl * l.rate + extra * l.rate;
  }

  // ----- the rate bound across evictions -----

  /** With time that does not run backwards no bucket is overdrawn or ahead of its time. */
  lemma {:induction false} BucketSane(l: Limits, run: seq<Event>, key: string, j: nat)
    requires l.rate >= 0.0 && l.burst >= 1 && Monotone(run) && 0 < j <= |run|
    ensures var b := BucketOf(l, run[..j], key);
            b.Some? ==> b.value.tokens >= 0.0 && b.value.lastSeen <= run[j - 1].now
  {
    hide Earned;
    hide BucketOf;
    hide Refilled;
    BucketNext(l, run, key, j - 1);
    var b, now := BucketOf(l, run[..j - 1], key), run[j - 1].now;
    if j > 1 {
      BucketSane(l, run, key, j - 1);
      assert run[j - 2].now <= now;
    } else {
      NoBucket(l, run, key);
    }
    if b.Some? {
      RefillKeeps(l, b.value, now);
    }
  }

  lemma NoBucket(l: Limits, run: seq<Event>, key: string)
    ensures BucketOf(l, run[..0], key) == None
  {
  }

  /** What has been allowed since time `since` is paid for, by the bucket or, if there is none, by the time passed. */
  predicate PaidFor(l: Limits, b: Option<Bucket>, since: real, now: real, allowed: real) {
    if b.Some? then Potential(l, b.value) <= l.burst as real - Earned(l, since) - allowed
    else allowed <= Earned(l, now) - Earned(l, since)
  }

  lemma PaidCall(l: Limits, b: Option<Bucket>, since: real, last: real, now: real, allowed: real)
    requires l.rate >= 0.0 && last <= now && PaidFor(l, b, since, last, allowed)
    ensures var r := Take(l, b, now);
            PaidFor(l, Some(r.0), since, now, allowed + if r.1 then 1.0 else 0.0)
  {
    EarnedBetween(l, last, now);
    hide Earned;
    if b.Some? {
      PotentialFalls(l, b.value, now);
    }
  }

  lemma PaidSweep(l: Limits, b: Option<Bucket>, since: real, last: real, now: real, allowed: real)
    requires l.rate >= 0.0 && Earned(l, l.ttl) >= l.burst as real && last <= now
    requires b.Some? ==> b.value.tokens >= 0.0
    requires PaidFor(l, b, since, last, allowed)
    ensures PaidFor(l, KeyStep(l, b, Sweep(now)), since, now, allowed)
  {
    EarnedBetween(l, last, now);
    if b.Some? && Stale(l, b.value, now) {
      EarnedBetween(l, b.value.lastSeen, now);
      EarnedBetween(l, l.ttl, now - b.value.lastSeen);
    }
    hide Earned;
  }

  lemma {:induction false} WindowPaid(l: Limits, run: seq<Event>, key: string, i: nat, j: nat)
    requires l.rate >= 0.0 && l.burst >= 1 && Earned(l, l.ttl) >= l.burst as real && Monotone(run)
    requires i < j <= |run| && IsCall(run[i], key)
    ensures PaidFor(l, BucketOf(l, run[..j], key), run[i].now, run[j - 1].now, Allowed(l, run, key, i, j) as real)
    decreases j
  {
    hide BucketOf;
    hide Earned;
    hide Take;
    var b, now := BucketOf(l, run[..j - 1], key), run[j - 1].now;
    BucketNext(l, run, key, j - 1);
    if j == i + 1 {
      PotentialStarts(l, b, now);
      assert Allowed(l, run, key, i, i) == 0;
    } else {
      WindowPaid(l, run, key, i, j - 1);
      var last, allowed := run[j - 2].now, Allowed(l, run, key, i, j - 1) as real;
      assert last <= now;
      BucketSane(l, run, key, j - 1);
      hide PaidFor;
      if IsCall(run[j - 1], key) {
        PaidCall(l, b, run[i].now, last, now, allowed);
      } else if run[j - 1].Sweep? {
        PaidSweep(l, b, run[i].now, last, now, allowed);
      } else {
        PaidLater(l, b, run[i].now, last, now, allowed);
      }
    }
  }

  lemma PaidLater(l: Limits, b: Option<Bucket>, since: real, last: real, now: real, allowed: real)
    requires l.rate >= 0.0 && last <= now && PaidFor(l, b, since, last, allowed)
    ensures PaidFor(l, b, since, now, allowed)
  {
    EarnedBetween(l, last, now);
    hide Earned;
  }

  lemma BoundedAcross(l: Limits, run: seq<Event>, i: nat, j: nat)
    requires l.rate >= 0.0 && l.burst >= 1 && Earned(l, l.ttl) >= l.burst as real && Monotone(run)
    requires Window(l, run, i, j)
    ensures WithinRate(l, run, i, j)
  {
    hide BucketOf;
    hide Allowed;
    hide Earned;
    var b := LastAllowed(l, run, j);
    WindowPaid(l, run, run[i].key, i, j + 1);
    EarnedBetween(l, run[i].now, run[j].now);
  }

  /** The bound holds in every window, whatever sweeps come in between. */
  ghost predicate BoundedAcrossSweeps(l: Limits) {
    forall run: seq<Event>, i, j :: Monotone(run) && Window(l, run, i, j) ==> WithinRate(l, run, i, j)
  }

  /** In a run of one key that is always allowed, every call is. */
  lemma {:induction false} EachAllowed(l: Limits, run: seq<Event>, n: nat, k: nat)
    requires forall i :: 0 <= i < |run| && run[i].Call? ==> run[i].key == ""
    requires k < n <= |run| && run[k].Call? && AllTrue(Answers(l, run[..n]))
    ensures Answer(l, run, k)
  {
    hide Take;
    hide BucketOf;
    var before := run[..n - 1];
    assert run[..n][..n - 1] == before && run[..n][n - 1] == run[n - 1];
    if run[n - 1].Call? {
      LastTrue(Answers(l, before), Take(l, After(l, before), run[n - 1].now).1);
    }
    if k < n - 1 {
      EachAllowed(l, run, n - 1, k);
    } else {
      SameBucket(l, before);
    }
  }

  lemma SameBucket(l: Limits, run: seq<Event>)
    requires forall i :: 0 <= i < |run| && run[i].Call? ==> run[i].key == ""
    ensures BucketOf(l, run, "") == After(l, run)
  {
    KeyAlone(l, run, "");
    OneKey("", run);
  }

  /** All calls of two bursts with a sweep between them are counted. */
  lemma {:induction false} BurstsCounted(l: Limits, run: seq<Event>, n: nat, j: nat)
    requires n < |run| && j <= |run| && run[n].Sweep?
    requires forall k :: 0 <= k < |run| && k != n ==> IsCall(run[k], "") && Answer(l, run, k)
    ensures Allowed(l, run, "", 0, j) == if j <= n then j else j - 1
  {
    hide Answer;
    if j > 0 {
      BurstsCounted(l, run, n, j - 1);
    }
  }

  lemma BurstsShape(n: nat, t: real)
    requires n > 0
    ensures var run := Calls(0.0, n) + [Sweep(t)] + Calls(t, n);
            && |run| == 2 * n + 1 && run[0].now == 0.0 && run[n].Sweep? && run[2 * n].now == t
            && forall k :: 0 <= k < |run| && k != n ==> IsCall(run[k], "")
  {
  }

  lemma TooManyAllowed(l: Limits, run: seq<Event>, n: nat, t: real)
    requires Monotone(run) && n == l.burst >= 1 && Earned(l, t) < n as real
    requires |run| == 2 * n + 1 && run[0].now == 0.0 && run[n].Sweep? && run[2 * n].now == t
    requires forall k :: 0 <= k < |run| && k != n ==> IsCall(run[k], "") && Answer(l, run, k)
    ensures !BoundedAcrossSweeps(l)
  {
    BurstsCounted(l, run, n, 2 * n + 1);
    hide Monotone;
    hide Allowed;
    hide Answer;
    hide Earned;
    assert Window(l, run, 0, 2 * n) && !WithinRate(l, run, 0, 2 * n);
  }

  lemma SecondBurstTooMany(l: Limits, t: real)
    requires l.burst >= 1 && t > l.ttl >= 0.0 && Earned(l, t) < l.burst as real
    ensures !BoundedAcrossSweeps(l)
  {
    var n := l.burst;
    var run := Calls(0.0, n) + [Sweep(t)] + Calls(t, n);
    SecondBurst(l, t);
    BurstsInOrder(n, t);
    BurstsShape(n, t);
    hide *;
    assert run[..|run|] == run;
    forall k | 0 <= k < |run| && k != n
      ensures run[k].Call? && Answer(l, run, k)
    {
      CallOf(run[k], "");
      EachAllowed(l, run, |run|, k);
    }
    TooManyAllowed(l, run, n, t);
  }

  lemma CallOf(e: Event, key: string)
    requires IsCall(e, key)
    ensures e.Call? && e.key == key
  {
  }

  /**
    With time that does not run backwards the bound holds in every window of every run, across
    any sweeps, exactly when burst >= 1 and ttl * rate >= burst.
    */
  lemma BoundedAcrossSweepsIff(l: Limits)
    requires l.rate >= 0.0 && l.ttl >= 0.0
    ensures BoundedAcrossSweeps(l) <==> l.burst >= 1 && Earned(l, l.ttl) >= l.burst as real
  {
    if l.burst < 1 {
      var run := OneCallTooMany(l);
      assert Monotone(run);
    } else if Earned(l, l.ttl) >= l.burst as real {
      forall run: seq<Event>, i, j | Monotone(run) && Window(l, run, i, j)
        ensures WithinRate(l, run, i, j)
      {
        BoundedAcross(l, run, i, j);
      }
    } else {
      var t := JustAfter(l);
      SecondBurstTooMany(l, t);
    }
  }

  // ----- a paced key -----

  lemma PacedCall(l: Limits, b: Bucket, now: real)
    requires l.burst >= 1 && b.tokens >= 0.0 && Earned(l, now - b.lastSeen) >= 1.0
    ensures var r := Take(l, Some(b), now); r.1 && r.0.tokens >= 0.0 && r.0.lastSeen == now
  {
    hide Earned;
  }

  /** When a key last called. */
  function LastCall(run: seq<Event>, key: string): Option<real> {
    if run == [] then None
    else if IsCall(run[|run| - 1], key) then Some(run[|run| - 1].now)
    else LastCall(run[..|run| - 1], key)
  }

  /** Each call of the key comes at least 1/rate after the one before. */
  predicate Paced(l: Limits, run: seq<Event>, key: string) {
    run == [] ||
    (var n := |run| - 1;
     && Paced(l, run[..n], key)
     && (IsCall(run[n], key) && LastCall(run[..n], key).Some? ==>
           Earned(l, run[n].now - LastCall(run[..n], key).value) >= 1.0))
  }

  /** A key that calls no faster than once per 1/rate is never refused, whatever others do and whenever is swept. */
  lemma {:induction false} PacedNeverRefused(l: Limits, run: seq<Event>, key: string)
    requires l.burst >= 1 && Paced(l, run, key)
    ensures AllTrue(AnswersTo(l, run, key))
    ensures var b := BucketOf(l, run, key);
            b.Some? ==> b.value.tokens >= 0.0 && LastCall(run, key) == Some(b.value.lastSeen)
  {
    hide Earned;
    hide Refilled;
    if run != [] {
      var n := |run| - 1;
      PacedNeverRefused(l, run[..n], key);
      var b := BucketOf(l, run[..n], key);
      BucketNext(l, run, key, n);
      assert run[..n + 1] == run;
      if IsCall(run[n], key) {
        if b.Some? {
          PacedCall(l, b.value, run[n].now);
        }
        LastTrue(AnswersTo(l, run[..n], key), Take(l, b, run[n].now).1);
      }
    }
  }
}
