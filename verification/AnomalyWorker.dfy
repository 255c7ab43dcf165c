/**
  The worker that samples the number of error entries per tenant and service and feeds it
  to the detector.
  */
module AnomalyWorker {
  import opened Anomaly
  import opened LogStore
  import opened Model
  import opened Reals
  import opened Text

  const SIGNAL := "error_volume"

  type Series = (string, string)

  function SeriesOf(e: StoredEntry): Series {
    (e.entry.tenant, e.entry.service)
  }

  function KeyOf(k: Series): string {
    SeriesKey(k.0, k.1, SIGNAL)
  }

  predicate IsError(e: StoredEntry) {
    e.entry.level == "error" || e.entry.level == "fatal"
  }

  /** The number of error entries of a series. */
  function Errors(log: Log, k: Series): real {
    if log == [] then 0.0
    else
      var e := log[|log| - 1];
      Errors(log[..|log| - 1], k) + if SeriesOf(e) == k && IsError(e) then 1.0 else 0.0
  }

  /** The series that occur, with or without errors. */
  function Occurring(log: Log): (s: set<Series>)
  {
    if log == [] then {} else Occurring(log[..|log| - 1]) + {SeriesOf(log[|log| - 1])}
  }

  /** The baseline a series of values leads to. */
  function SeriesState(p: Params, xs: seq<real>): Option<Baseline> {
    if xs == [] then None else Some(After(p, xs))
  }

  /** Positions at which passes cut the log: ascending, each within it. */
  predicate Cuts(log: Log, cuts: seq<nat>) {
    && (forall i :: 0 <= i < |cuts| ==> 0 < cuts[i] <= |log|)
    && (forall i, j :: 0 <= i < j < |cuts| ==> cuts[i] < cuts[j])
  }

  function Last(cuts: seq<nat>): nat {
    if cuts == [] then 0 else cuts[|cuts| - 1]
  }

  /** The values a series has been fed when the log was cut like this: one for each window it occurs in. */
  function Fed(log: Log, cuts: seq<nat>, k: Series): seq<real>
    requires Cuts(log, cuts)
  {
    if cuts == [] then []
    else
      var n := |cuts| - 1;
      var before := Fed(log, cuts[..n], k);
      var window := log[Last(cuts[..n])..cuts[n]];
      if k in Occurring(window) then before + [Errors(window, k)] else before
  }

  /** The baselines after the series in `order` have taken in their counts, one by one. */
  function Observed(p: Params, base: map<string, Baseline>, window: Log, order: seq<Series>): map<string, Baseline> {
    if order == [] then base
    else
      var n := |order| - 1;
      var before := Observed(p, base, window, order[..n]);
      before[KeyOf(order[n]) := Anomaly.Next(p, BaselineOf(before, KeyOf(order[n])), Errors(window, order[n]))]
  }

  /** The members of `s`, each once. */
  predicate Lists(order: seq<Series>, s: set<Series>) {
    && (forall k :: k in order ==> k in s) && (forall k :: k in s ==> k in order)
    && (forall i, j :: 0 <= i < j < |order| ==> order[i] != order[j])
  }

  /** The log and the worker; `cuts` is the history of where its passes have cut the log. */
  datatype State = State(log: Log, lastId: nat, base: map<string, Baseline>, cuts: seq<nat>)

  /** A batch is written, or a pass observes the series of its window in some order. */
  datatype Action = Write(batch: seq<LogEntry>) | Pass(order: seq<Series>)

  const WINDOW := 100_000

  /** An order that does not list the window's series is not possible and leaves the state as it is. */
  function Step(p: Params, s: State, a: Action): State {
    match a
    case Write(batch) => s.(log := Persist(s.log, batch))
    case Pass(order) =>
      var window := Newer(s.log, s.lastId, WINDOW);
      if window == [] || !Lists(order, Occurring(window)) then s
      else
        var last := window[|window| - 1].id;
        s.(base := Observed(p, s.base, window, order), lastId := last, cuts := s.cuts + [last])
  }

  /** Every series whose tenant's name is apart from all others is where its own values have brought it. */
  ghost predicate InStep(p: Params, s: State) {
    && Numbered(s.log)
    && Cuts(s.log, s.cuts)
    && s.lastId == Last(s.cuts)
    && forall k: Series :: AllApart(s.log, k.0) ==>
         BaselineOf(s.base, KeyOf(k)) == SeriesState(p, Fed(s.log, s.cuts, k))
  }

  class Worker {
    const store: MemStore
    const det: Detector
    var lastId: nat
    ghost var cuts: seq<nat>

    ghost function View(): State
      reads this, store, det
    {
      State(store.entries, lastId, det.base, cuts)
    }

    ghost predicate Valid()
      reads this, store, det
    {
      store.Valid() && InStep(det.params, View())
    }

    constructor (store: MemStore, det: Detector)
      requires store.Valid() && det.base == map[]
      ensures Valid() && lastId == 0 && this.store == store && this.det == det
    {
      this.store, this.det := store, det;
      lastId, cuts := 0, [];
    }

    /** One pass over the entries behind the checkpoint; `order` is the order of its map iteration. */
    method Tick(now: int) returns (events: seq<Event>, ghost order: seq<Series>)
      requires Valid()
      modifies this, det
      ensures Valid()
      ensures View() == Step(det.params, old(View()), Pass(order))
      ensures lastId == if |store.entries| - old(lastId) <= 100_000 then |store.entries| else old(lastId) + 100_000
      ensures Lists(order, Occurring(store.entries[old(lastId)..lastId]))
      ensures AlertedRightly(det.params, det.sqrt, old(det.base), store.entries[old(lastId)..lastId], events)
    {
      hide Fed;
      hide SeriesState;
      hide Newer;
      hide Observed;
      hide AlertedRightly;
      hide Occurring;
      ghost var log, base, from := store.entries, det.base, lastId;
      var window := store.Since(lastId, WINDOW);
      WindowBehind(log, from, window);
      if |window| == 0 {
        NoSeries(det.params, det.sqrt, base, log[from..from]);
        return [], [];
      }
      events, order := ObserveAll(window, now);
      lastId := window[|window| - 1].id;
      PassKeeps(det.params, State(log, from, base, cuts), order);
      cuts := cuts + [lastId];
    }

    /** Feeds every series of the window its count, those without errors too, in any order. */
    method ObserveAll(window: Log, now: int) returns (events: seq<Event>, ghost order: seq<Series>)
      modifies det
      ensures Lists(order, Occurring(window))
      ensures det.base == Observed(det.params, old(det.base), window, order)
      ensures AlertedRightly(det.params, det.sqrt, old(det.base), window, events)
    {
      hide Observed;
      hide AlertedSoFar;
      hide Lists;
      hide Among;
      var seen, counts := Count(window);
      var todo := seen;
      events, order := [], [];
      NothingYet(det.params, det.sqrt, det.base, window);
      assert seen - todo == {};
      while todo != {}
        invariant todo <= seen && Lists(order, seen - todo)
        invariant det.base == Observed(det.params, old(det.base), window, order)
        invariant AlertedSoFar(det.params, det.sqrt, old(det.base), window, events, order)
      {
        var k :| k in todo;
        ListsMore(window, order, seen - todo, k);
        assert seen - todo + {k} == seen - (todo - {k});
        var event := det.Observe(k.0, k.1, SIGNAL, counts[k], now);
        ObservedMore(det.params, old(det.base), window, order, k);
        AlertedMore(det.params, det.sqrt, old(det.base), window, events, order, k, event);
        if event.Some? {
          events := events + [event.value];
        }
        todo, order := todo - {k}, order + [k];
      }
      assert seen - todo == seen;
      AllAlerted(det.params, det.sqrt, old(det.base), window, events, order);
    }

    /** Counts errors, and notes every series seen. */
    method Count(window: Log) returns (seen: set<Series>, counts: map<Series, real>)
      ensures seen == Occurring(window) == counts.Keys
      ensures forall k :: k in seen ==> counts[k] == Errors(window, k)
    {
      seen, counts := {}, map[];
      for i := 0 to |window|
        invariant seen == Occurring(window[..i]) == counts.Keys
        invariant forall k :: k in seen ==> counts[k] == Errors(window[..i], k)
        invariant forall k :: k !in seen ==> Errors(window[..i], k) == 0.0
      {
        assert window[..i + 1][..i] == window[..i];
        var e := window[i];
        var k := SeriesOf(e);
        if k !in seen {
          seen := seen + {k};
          counts := counts[k := 0.0];
        }
        if IsError(e) {
          counts := counts[k := counts[k] + 1.0];
        }
      }
      assert window[..|window|] == window;
    }
  }

  ghost function AlertedBy(events: seq<Event>): set<Series> {
    set i | 0 <= i < |events| :: (events[i].tenant, events[i].service)
  }

  lemma AlertedNext(events: seq<Event>, e: Event)
    ensures AlertedBy(events + [e]) == AlertedBy(events) + {(e.tenant, e.service)}
  {
    assert (events + [e])[|events|] == e;
    assert forall i :: 0 <= i < |events| ==> (events + [e])[i] == events[i];
  }

  /** The count of the window is an alert against the baseline from before the pass. */
  predicate AlertsIn(p: Params, sqrt: Root, base: map<string, Baseline>, window: Log, k: Series) {
    var b := BaselineOf(base, KeyOf(k));
    b.Some? && Alerts(p, sqrt, b.value, Errors(window, k))
  }

  /**
    Only series of the window alert, and one whose tenant's name is apart from the others
    alerts exactly when its count does.
    */
  ghost predicate AlertedRightly(p: Params, sqrt: Root, base: map<string, Baseline>, window: Log, events: seq<Event>) {
    && AlertedBy(events) <= Occurring(window)
    && forall k :: k in Occurring(window) && AllApart(window, k.0) ==>
         (k in AlertedBy(events) <==> AlertsIn(p, sqrt, base, window, k))
  }

  /** The same for the series observed so far. */
  ghost predicate AlertedSoFar(p: Params, sqrt: Root, base: map<string, Baseline>, window: Log,
                               events: seq<Event>, order: seq<Series>)
  {
    && (forall k :: k in AlertedBy(events) ==> k in order)
    && forall k :: k in order && AllApart(window, k.0) ==>
         (k in AlertedBy(events) <==> AlertsIn(p, sqrt, base, window, k))
  }

  lemma NoSeries(p: Params, sqrt: Root, base: map<string, Baseline>, window: Log)
    requires window == []
    ensures Lists([], Occurring(window)) && AlertedRightly(p, sqrt, base, window, [])
  {
  }

  lemma NothingYet(p: Params, sqrt: Root, base: map<string, Baseline>, window: Log)
    ensures Lists([], {}) && Observed(p, base, window, []) == base && AlertedSoFar(p, sqrt, base, window, [], [])
  {
  }

  lemma ListsMore(window: Log, order: seq<Series>, s: set<Series>, k: Series)
    requires Lists(order, s) && s <= Occurring(window) && k !in s
    ensures Lists(order + [k], s + {k}) && Among(order, window) && k !in order
  {
  }

  lemma ObservedMore(p: Params, base: map<string, Baseline>, window: Log, order: seq<Series>, k: Series)
    ensures var before := Observed(p, base, window, order);
            Observed(p, base, window, order + [k])
            == before[KeyOf(k) := Anomaly.Next(p, BaselineOf(before, KeyOf(k)), Errors(window, k))]
  {
    assert (order + [k])[..|order|] == order;
  }

  lemma AlertedMore(p: Params, sqrt: Root, base: map<string, Baseline>, window: Log,
                    events: seq<Event>, order: seq<Series>, k: Series, event: Option<Event>)
    requires AlertedSoFar(p, sqrt, base, window, events, order)
    requires Among(order, window) && k !in order
    requires event.Some? <==> var b := BaselineOf(Observed(p, base, window, order), KeyOf(k));
                              b.Some? && Alerts(p, sqrt, b.value, Errors(window, k))
    requires event.Some? ==> (event.value.tenant, event.value.service) == k
    ensures AlertedSoFar(p, sqrt, base, window,
                         if event.Some? then events + [event.value] else events, order + [k])
  {
    AlertNow(p, sqrt, base, window, order, k);
    hide AlertsIn;
    match event {
      case None =>
      case Some(e) => AlertedNext(events, e);
    }
  }

  lemma AllAlerted(p: Params, sqrt: Root, base: map<string, Baseline>, window: Log,
                   events: seq<Event>, order: seq<Series>)
    requires Lists(order, Occurring(window)) && AlertedSoFar(p, sqrt, base, window, events, order)
    ensures AlertedRightly(p, sqrt, base, window, events)
  {
  }

  // ----- keys -----

  /** Series of tenants whose names are apart have keys of their own. */
  lemma KeysApart(k: Series, l: Series)
    requires NamesApart(k.0, l.0) && KeyOf(k) == KeyOf(l)
    ensures k == l
  {
    var x, y := k.1 + [NUL] + SIGNAL, l.1 + [NUL] + SIGNAL;
    assert KeyOf(k) == k.0 + [NUL] + x && KeyOf(l) == l.0 + [NUL] + y;
    SplitApart(k.0, x, l.0, y);
    assert k.1 == x[..|x| - |SIGNAL| - 1] && l.1 == y[..|y| - |SIGNAL| - 1];
  }

  /** Some series of the two tenants have one key; services are never empty. */
  ghost predicate ShareKey(t: string, u: string) {
    exists a, b :: a != "" && b != "" && KeyOf((t, a)) == KeyOf((u, b))
  }

  /** Two tenants can share a baseline exactly when their names are not apart. */
  lemma ShareKeyIff(t: string, u: string)
    requires t != u
    ensures ShareKey(t, u) <==> !NamesApart(t, u)
  {
    if ShareKey(t, u) {
      var a, b :| a != "" && b != "" && KeyOf((t, a)) == KeyOf((u, b));
      if NamesApart(t, u) {
        KeysApart((t, a), (u, b));
      }
    }
    if t + [NUL] <= u {
      LongerNameShares(t, u);
    } else if u + [NUL] <= t {
      LongerNameShares(u, t);
    }
  }

  lemma LongerNameShares(t: string, u: string)
    requires t + [NUL] <= u
    ensures KeyOf((t, u[|t| + 1..] + [NUL] + "s")) == KeyOf((u, "s"))
  {
    var z, tail := u[|t| + 1..], "s" + [NUL] + SIGNAL;
    assert u == t + [NUL] + z;
    assert (z + [NUL] + "s") + [NUL] + SIGNAL == z + [NUL] + tail;
    assert t + [NUL] + (z + [NUL] + tail) == (t + [NUL] + z) + [NUL] + tail;
    assert "s" + ([NUL] + SIGNAL) == tail;
  }

  // ----- one pass -----

  /** What a pass reads is the stretch of the log behind the checkpoint. */
  lemma WindowBehind(log: Log, from: nat, window: Log)
    requires Numbered(log) && from <= |log| && window == Newer(log, from, WINDOW)
    ensures |window| == if |log| - from <= WINDOW then |log| - from else WINDOW
    ensures window == log[from..from + |window|]
    ensures window != [] ==> window[|window| - 1].id == from + |window|
  {
    NewerContinues(log, from, WINDOW);
    assert window == log[from..][..|window|] == log[from..from + |window|];
    assert window != [] ==> window[|window| - 1] == log[from + |window| - 1];
  }

  lemma CutsNext(log: Log, cuts: seq<nat>, next: nat)
    requires Cuts(log, cuts) && Last(cuts) < next <= |log|
    ensures Cuts(log, cuts + [next]) && Last(cuts + [next]) == next && (cuts + [next])[..|cuts|] == cuts
  {
  }

  lemma {:induction false} OccurringMembers(log: Log, k: Series)
    ensures k in Occurring(log) <==> exists i :: 0 <= i < |log| && SeriesOf(log[i]) == k
  {
    if log != [] {
      var n := |log| - 1;
      OccurringMembers(log[..n], k);
      assert forall i :: 0 <= i < n ==> log[..n][i] == log[i];
    }
  }

  /** Some series of the window. */
  predicate Among(order: seq<Series>, window: Log) {
    && (forall i :: 0 <= i < |order| ==> order[i] in Occurring(window))
    && (forall i, j :: 0 <= i < j < |order| ==> order[i] != order[j])
  }

  /** A series whose tenant's name is apart from the others takes in its own count only, whatever the order. */
  lemma {:induction false} ObservedAlone(p: Params, base: map<string, Baseline>, window: Log,
                                         order: seq<Series>, k: Series)
    requires Among(order, window) && AllApart(window, k.0)
    ensures BaselineOf(Observed(p, base, window, order), KeyOf(k))
         == if k in order then Some(Anomaly.Next(p, BaselineOf(base, KeyOf(k)), Errors(window, k)))
            else BaselineOf(base, KeyOf(k))
  {
    if order != [] {
      var n := |order| - 1;
      var l := order[n];
      assert Among(order[..n], window) && order == order[..n] + [l];
      ObservedAlone(p, base, window, order[..n], k);
      if KeyOf(l) == KeyOf(k) {
        OccurringMembers(window, l);
        KeysApart(k, l);
      }
    }
  }

  lemma AlertNow(p: Params, sqrt: Root, base: map<string, Baseline>, window: Log, order: seq<Series>, k: Series)
    requires Among(order, window) && k !in order
    ensures AllApart(window, k.0) ==>
              (AlertsIn(p, sqrt, base, window, k) <==>
                 var b := BaselineOf(Observed(p, base, window, order), KeyOf(k));
                 b.Some? && Alerts(p, sqrt, b.value, Errors(window, k)))
  {
    if AllApart(window, k.0) {
      ObservedAlone(p, base, window, order, k);
    }
  }

  /** Keys of other series are not touched. */
  lemma {:induction false} ObservedElsewhere(p: Params, base: map<string, Baseline>, window: Log,
                                             order: seq<Series>, key: string)
    requires forall i :: 0 <= i < |order| ==> KeyOf(order[i]) != key
    ensures BaselineOf(Observed(p, base, window, order), key) == BaselineOf(base, key)
  {
    if order != [] {
      ObservedElsewhere(p, base, window, order[..|order| - 1], key);
    }
  }

  /** With names that are apart, all orders lead to the same baselines. */
  lemma AnyOrder(p: Params, base: map<string, Baseline>, window: Log, one: seq<Series>, two: seq<Series>)
    requires Lists(one, Occurring(window)) && Lists(two, Occurring(window))
    requires forall k :: k in Occurring(window) ==> AllApart(window, k.0)
    ensures Observed(p, base, window, one) == Observed(p, base, window, two)
  {
    var x, y := Observed(p, base, window, one), Observed(p, base, window, two);
    forall key
      ensures BaselineOf(x, key) == BaselineOf(y, key)
    {
      if k :| k in Occurring(window) && KeyOf(k) == key {
        ObservedAlone(p, base, window, one, k);
        ObservedAlone(p, base, window, two, k);
      } else {
        ObservedElsewhere(p, base, window, one, key);
        ObservedElsewhere(p, base, window, two, key);
      }
    }
    SameMaps(x, y);
  }

  lemma SameMaps(x: map<string, Baseline>, y: map<string, Baseline>)
    requires forall key :: BaselineOf(x, key) == BaselineOf(y, key)
    ensures x == y
  {
    forall key
      ensures key in x <==> key in y
      ensures key in x && key in y ==> x[key] == y[key]
    {
      assert BaselineOf(x, key) == BaselineOf(y, key);
    }
  }

  lemma SeriesStateNext(p: Params, xs: seq<real>, x: real)
    ensures SeriesState(p, xs + [x]) == Some(Anomaly.Next(p, SeriesState(p, xs), x))
  {
    assert (xs + [x])[..|xs|] == xs;
  }

  /** A pass keeps every series in step with what it was fed. */
  lemma PassKeeps(p: Params, s: State, order: seq<Series>)
    requires InStep(p, s)
    ensures InStep(p, Step(p, s, Pass(order)))
  {
    hide Newer;
    hide Observed;
    hide SeriesState;
    var window, t := Newer(s.log, s.lastId, WINDOW), Step(p, s, Pass(order));
    WindowBehind(s.log, s.lastId, window);
    if window != [] && Lists(order, Occurring(window)) {
      CutsNext(s.log, s.cuts, t.lastId);
      forall k: Series | AllApart(s.log, k.0)
        ensures BaselineOf(t.base, KeyOf(k)) == SeriesState(p, Fed(s.log, t.cuts, k))
      {
        assert AllApart(window, k.0);
        ObservedAlone(p, s.base, window, order, k);
        SeriesStateNext(p, Fed(s.log, s.cuts, k), Errors(window, k));
      }
    }
  }

  /** What passes have read stays as it was when the log grows. */
  lemma {:induction false} FedGrown(log: Log, grown: Log, cuts: seq<nat>, k: Series)
    requires Cuts(log, cuts) && log <= grown
    ensures Cuts(grown, cuts) && Fed(grown, cuts, k) == Fed(log, cuts, k)
  {
    if cuts != [] {
      var n := |cuts| - 1;
      FedGrown(log, grown, cuts[..n], k);
      assert grown[Last(cuts[..n])..cuts[n]] == log[Last(cuts[..n])..cuts[n]];
    }
  }

  /** And so does a write between two passes. */
  lemma WriteKeeps(p: Params, s: State, batch: seq<LogEntry>)
    requires InStep(p, s)
    ensures InStep(p, Step(p, s, Write(batch)))
  {
    var grown := Persist(s.log, batch);
    assert s.log <= grown;
    forall k: Series
      ensures Cuts(grown, s.cuts) && Fed(grown, s.cuts, k) == Fed(s.log, s.cuts, k)
      ensures AllApart(grown, k.0) ==> AllApart(s.log, k.0)
    {
      FedGrown(s.log, grown, s.cuts, k);
      assert forall i :: 0 <= i < |s.log| ==> grown[i] == s.log[i];
    }
  }

  /** The worker stays valid whatever is written to its store between two passes. */
  twostate lemma WriteKeepsValid(w: Worker, batch: seq<LogEntry>)
    requires old(w.Valid()) && w.store.Valid() && unchanged(w) && unchanged(w.det)
    requires w.store.entries == Persist(old(w.store.entries), batch)
    ensures w.Valid()
  {
    WriteKeeps(w.det.params, old(w.View()), batch);
  }

  // ----- nothing is lost or counted twice -----

  function Total(xs: seq<real>): real {
    if xs == [] then 0.0 else Total(xs[..|xs| - 1]) + xs[|xs| - 1]
  }

  lemma {:induction false} ErrorsConcat(a: Log, b: Log, k: Series)
    ensures Errors(a + b, k) == Errors(a, k) + Errors(b, k)
  {
    if b == [] {
      assert a + b == a;
    } else {
      assert (a + b)[..|a + b| - 1] == a + b[..|b| - 1];
      ErrorsConcat(a, b[..|b| - 1], k);
    }
  }

  lemma {:induction false} NoErrorsElsewhere(log: Log, k: Series)
    ensures k !in Occurring(log) ==> Errors(log, k) == 0.0
  {
    if log != [] {
      NoErrorsElsewhere(log[..|log| - 1], k);
    }
  }

  /** The positions of a series' entries with level error or fatal. */
  ghost function ErrorPositions(log: Log, k: Series): set<nat> {
    set i: nat | i < |log|
      && log[i].entry.tenant == k.0 && log[i].entry.service == k.1 && log[i].entry.level in ["error", "fatal"]
  }

  lemma ErrorPositionsNext(log: Log, k: Series)
    requires log != []
    ensures var n := |log| - 1;
            ErrorPositions(log, k)
            == ErrorPositions(log[..n], k) + if SeriesOf(log[n]) == k && IsError(log[n]) then {n} else {}
  {
    var n := |log| - 1;
    assert forall i :: 0 <= i < n ==> log[..n][i] == log[i];
  }

  lemma {:induction false} ErrorsArePositions(log: Log, k: Series)
    ensures Errors(log, k) == |ErrorPositions(log, k)| as real
  {
    if log != [] {
      var n := |log| - 1;
      ErrorsArePositions(log[..n], k);
      ErrorPositionsNext(log, k);
      assert n !in ErrorPositions(log[..n], k);
      hide ErrorPositions;
      hide SeriesOf;
      hide IsError;
    }
  }

  /** However the passes cut the log, the values fed to a series add up to its errors up to the checkpoint. */
  lemma {:induction false} FedTotal(log: Log, cuts: seq<nat>, k: Series)
    requires Cuts(log, cuts)
    ensures Last(cuts) <= |log| && Total(Fed(log, cuts, k)) == Errors(log[..Last(cuts)], k)
  {
    if cuts != [] {
      var n := |cuts| - 1;
      FedTotal(log, cuts[..n], k);
      var seen, window := log[..Last(cuts[..n])], log[Last(cuts[..n])..cuts[n]];
      assert log[..cuts[n]] == seen + window;
      hide Errors;
      hide Occurring;
      ErrorsConcat(seen, window, k);
      NoErrorsElsewhere(window, k);
      TotalNext(Fed(log, cuts[..n], k), Errors(window, k));
      hide Total;
    }
  }

  lemma TotalNext(xs: seq<real>, x: real)
    ensures Total(xs + [x]) == Total(xs) + x
  {
    assert (xs + [x])[..|xs|] == xs;
  }

  // ----- whole runs -----

  /** The state after a run of writes and passes in any order. */
  function Reach(p: Params, run: seq<Action>): State {
    if run == [] then State([], 0, map[], []) else Step(p, Reach(p, run[..|run| - 1]), run[|run| - 1])
  }

  lemma {:induction false} RunKeeps(p: Params, run: seq<Action>)
    ensures InStep(p, Reach(p, run))
  {
    if run != [] {
      hide InStep;
      hide Step;
      var n := |run| - 1;
      RunKeeps(p, run[..n]);
      match run[n] {
        case Write(batch) => WriteKeeps(p, Reach(p, run[..n]), batch);
        case Pass(order) => PassKeeps(p, Reach(p, run[..n]), order);
      }
    }
  }

  /**
    After any run of writes and passes, whatever the sizes of the batches and the orders of
    observation: what a series was fed adds up to the number of its entries with level error or
    fatal up to the checkpoint, and its
    baseline is what those values alone lead to.
    */
  lemma CountedOnce(p: Params, run: seq<Action>, k: Series)
    ensures var s := Reach(p, run);
            && s.lastId <= |s.log| && Cuts(s.log, s.cuts)
            && Total(Fed(s.log, s.cuts, k)) == |ErrorPositions(s.log[..s.lastId], k)| as real
            && (AllApart(s.log, k.0) ==> BaselineOf(s.base, KeyOf(k)) == SeriesState(p, Fed(s.log, s.cuts, k)))
  {
    RunKeeps(p, run);
    FedTotal(Reach(p, run).log, Reach(p, run).cuts, k);
    ErrorsArePositions(Reach(p, run).log[..Reach(p, run).lastId], k);
  }

  // ----- equal counts -----

  lemma {:induction false} ErrorsCount(log: Log, k: Series)
    ensures Anomaly.Count(Errors(log, k))
  {
    if log != [] {
      ErrorsCount(log[..|log| - 1], k);
      var before := Errors(log[..|log| - 1], k);
      assert before + 1.0 == (before.Floor + 1) as real;
    }
  }

  /** The detector is fed nothing but counts. */
  lemma {:induction false} FedCounts(log: Log, cuts: seq<nat>, k: Series)
    requires Cuts(log, cuts)
    ensures Counts(Fed(log, cuts, k))
  {
    if cuts != [] {
      var n := |cuts| - 1;
      FedCounts(log, cuts[..n], k);
      ErrorsCount(log[Last(cuts[..n])..cuts[n]], k);
    }
  }

  /**
    A window with as many errors of a series as the one before it never alerts, in any state
    of any run, when repeats of counts are quiet; with the deployed parameters they are.
    */
  lemma EqualCountQuiet(p: Params, sqrt: Root, s: State, k: Series)
    requires InStep(p, s) && AllApart(s.log, k.0) && QuietOnCountsFrom(p, sqrt, 1)
    requires var fed := Fed(s.log, s.cuts, k);
             fed != [] && fed[|fed| - 1] == Errors(Newer(s.log, s.lastId, WINDOW), k)
    ensures !AlertsIn(p, sqrt, s.base, Newer(s.log, s.lastId, WINDOW), k)
  {
    hide Newer;
    hide Alerts;
    hide After;
    var fed, x := Fed(s.log, s.cuts, k), Errors(Newer(s.log, s.lastId, WINDOW), k);
    FedCounts(s.log, s.cuts, k);
    ErrorsCount(Newer(s.log, s.lastId, WINDOW), k);
    hide Fed;
    hide Errors;
    hide Anomaly.Count;
    var xs := fed + [x];
    assert xs[..|fed|] == fed && Counts(xs) && Repeats(xs, |fed|, 1);
    assert !AlertAt(p, sqrt, xs, |fed|);
  }
}
