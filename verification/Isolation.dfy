/**
  Tenant isolation as a property of two runs: what one tenant sees is a function of that
  tenant's own entries, up to the IDs, whatever the other tenants do.
  */
module Isolation {
  import opened EmbedWorker
  import opened Embedding
  import opened Filters
  import opened Ingest
  import opened KnowledgeBase
  import opened LogStore
  import opened Model
  import opened Permutations
  import opened Pipeline
  import opened Query
  import opened Redaction
  import opened Text
  import opened VectorIndex

  function OwnedBy(tenant: string): StoredEntry -> bool {
    (e: StoredEntry) => e.entry.tenant == tenant
  }

  /** A tenant's entries, in log order. */
  function Own(log: Log, tenant: string): Log {
    Filter(log, OwnedBy(tenant))
  }

  /** The entries at some positions. */
  function Pick(s: Log, at: seq<nat>): (r: Log)
    requires forall i :: 0 <= i < |at| ==> at[i] < |s|
    ensures |r| == |at| && forall i :: 0 <= i < |at| ==> r[i] == s[at[i]]
  {
    seq(|at|, i requires 0 <= i < |at| => s[at[i]])
  }

  /** Equal contents, with IDs in the same relative order: equal up to a renaming of the IDs that keeps their order. */
  predicate SameButIds(r: Log, s: Log) {
    && |r| == |s|
    && (forall i :: 0 <= i < |r| ==> r[i].entry == s[i].entry)
    && (forall i, j :: 0 <= i < |r| && 0 <= j < |r| ==> (r[i].id < r[j].id <==> s[i].id < s[j].id))
  }

  predicate Ascending(s: Log) {
    forall i, j :: 0 <= i < j < |s| ==> s[i].id < s[j].id
  }

  lemma {:induction false} OwnAscending(log: Log, tenant: string)
    requires Numbered(log)
    ensures Ascending(Own(log, tenant))
    ensures forall i :: 0 <= i < |Own(log, tenant)| ==> Own(log, tenant)[i].entry.tenant == tenant
    ensures forall i :: 0 <= i < |Own(log, tenant)| ==> Own(log, tenant)[i].id <= |log|
    ensures forall i :: 0 <= i < |Own(log, tenant)| ==>
              Lookup(log, tenant, Own(log, tenant)[i].id) == Some(Own(log, tenant)[i])
  {
    if log != [] {
      OwnAscending(log[..|log| - 1], tenant);
    }
  }

  /** The same positions of two logs with equal contents. */
  lemma PickSame(a: Log, b: Log, at: seq<nat>)
    requires Ascending(a) && Ascending(b) && Contents(a) == Contents(b)
    requires forall i :: 0 <= i < |at| ==> at[i] < |a|
    ensures |a| == |b| && SameButIds(Pick(a, at), Pick(b, at))
  {
    assert |Contents(a)| == |a| && |Contents(b)| == |b|;
    forall i | 0 <= i < |a|
      ensures a[i].entry == b[i].entry
    {
      assert Contents(a)[i] == Contents(b)[i];
    }
    forall i, j | 0 <= i < |at| && 0 <= j < |at|
      ensures a[at[i]].id < a[at[j]].id <==> b[at[i]].id < b[at[j]].id
    {
    }
  }

  // ----- structured search -----

  /** A search within the tenant may skip the others' entries. */
  lemma {:induction false} FoundInOwn(log: Log, keep: StoredEntry -> bool, tenant: string)
    requires forall e :: keep(e) ==> e.entry.tenant == tenant
    ensures Filter(Reverse(log), keep) == Filter(Reverse(Own(log, tenant)), keep)
  {
    if log != [] {
      var n := |log| - 1;
      var own := Own(log[..n], tenant);
      OwnNext(log, tenant);
      FoundInOwn(log[..n], keep, tenant);
      hide Own;
      hide Filter;
      hide Reverse;
      FilterReversedLast(log, keep);
      if log[n].entry.tenant == tenant {
        var all := own + [log[n]];
        assert all[..|own|] == own;
        FilterReversedLast(all, keep);
      } else {
        assert [] + Filter(Reverse(log[..n]), keep) == Filter(Reverse(log[..n]), keep);
      }
    }
  }

  lemma OwnNext(log: Log, tenant: string)
    requires log != []
    ensures var n := |log| - 1;
            Own(log, tenant) == if log[n].entry.tenant == tenant then Own(log[..n], tenant) + [log[n]]
                                else Own(log[..n], tenant)
  {
  }

  lemma FilterReversedLast(s: Log, keep: StoredEntry -> bool)
    requires s != []
    ensures var n := |s| - 1;
            Filter(Reverse(s), keep) == (if keep(s[n]) then [s[n]] else []) + Filter(Reverse(s[..n]), keep)
  {
    assert s[..|s|] == s;
    FilterReversed(s, |s| - 1, keep);
  }

  /** Filtering two sequences that agree on what to keep picks the same positions. */
  lemma {:induction false} FilterSame(a: Log, b: Log, keep: StoredEntry -> bool) returns (at: seq<nat>)
    requires |a| == |b| && forall i :: 0 <= i < |a| ==> keep(a[i]) == keep(b[i])
    ensures forall i :: 0 <= i < |at| ==> at[i] < |a|
    ensures Filter(a, keep) == Pick(a, at) && Filter(b, keep) == Pick(b, at)
  {
    if a == [] {
      at := [];
    } else {
      var n := |a| - 1;
      at := FilterSame(a[..n], b[..n], keep);
      FilterNext(a, keep);
      FilterNext(b, keep);
      hide *;
      PickPrefix(a, n, at);
      PickPrefix(b, n, at);
      if keep(a[n]) {
        PickNext(a, at, n);
        PickNext(b, at, n);
        at := at + [n];
      }
    }
  }

  lemma FilterNext(s: Log, keep: StoredEntry -> bool)
    requires s != []
    ensures var n := |s| - 1;
            Filter(s, keep) == if keep(s[n]) then Filter(s[..n], keep) + [s[n]] else Filter(s[..n], keep)
  {
  }

  lemma PickPrefix(s: Log, n: nat, at: seq<nat>)
    requires n <= |s| && forall i :: 0 <= i < |at| ==> at[i] < n
    ensures Pick(s[..n], at) == Pick(s, at)
  {
  }

  lemma PickNext(s: Log, at: seq<nat>, n: nat)
    requires n < |s| && forall i :: 0 <= i < |at| ==> at[i] < |s|
    ensures (forall i :: 0 <= i < |at + [n]| ==> (at + [n])[i] < |s|) && Pick(s, at + [n]) == Pick(s, at) + [s[n]]
  {
  }

  lemma ReversePick(s: Log, at: seq<nat>) returns (back: seq<nat>)
    requires forall i :: 0 <= i < |at| ==> at[i] < |s|
    ensures |back| == |at| && forall i :: 0 <= i < |at| ==> back[i] == |s| - 1 - at[i]
    ensures Pick(Reverse(s), at) == Pick(s, back)
  {
    back := seq(|at|, i requires 0 <= i < |at| => |s| - 1 - at[i]);
  }

  lemma FirstNSame(r: Log, s: Log, n: nat)
    requires SameButIds(r, s)
    ensures SameButIds(FirstN(r, n), FirstN(s, n))
  {
  }

  lemma FilteredSame(lower: Fold, a: Log, b: Log, q: LogStore.Query)
    requires Ascending(a) && Ascending(b) && Contents(a) == Contents(b)
    ensures SameButIds(Filter(Reverse(a), Matching(lower, q)), Filter(Reverse(b), Matching(lower, q)))
  {
    var keep := Matching(lower, q);
    SameEntries(a, b);
    var at := FilterSame(Reverse(a), Reverse(b), keep);
    var back := ReversePick(a, at);
    var same := ReversePick(b, at);
    assert back == same;
    PickSame(a, b, back);
  }

  /**
    Two logs with the same projection onto a tenant answer the tenant's structured searches
    alike, up to the IDs.
    */
  lemma StructuredIsolation(lower: Fold, one: Log, two: Log, q: LogStore.Query)
    requires Numbered(one) && Numbered(two)
    requires Contents(Own(one, q.tenant)) == Contents(Own(two, q.tenant))
    ensures SameButIds(Found(lower, one, q), Found(lower, two, q))
  {
    if q.tenant != "" {
      var keep := Matching(lower, q);
      OwnAscending(one, q.tenant);
      OwnAscending(two, q.tenant);
      FoundInOwn(one, keep, q.tenant);
      FoundInOwn(two, keep, q.tenant);
      hide Own;
      hide Filter;
      hide Reverse;
      FilteredSame(lower, Own(one, q.tenant), Own(two, q.tenant), q);
      FirstNSame(Filter(Reverse(one), keep), Filter(Reverse(two), keep), if q.limit <= 0 then 100 else q.limit);
    }
  }

  // ----- the index -----

  lemma HashesLast(env: Env, log: Log)
    requires log != []
    ensures Hashes(env, log) == Hashes(env, log[..|log| - 1]) + {HashOf(env, log[|log| - 1])}
  {
  }

  lemma HashesAppend(env: Env, log: Log, e: StoredEntry)
    ensures Hashes(env, log + [e]) == Hashes(env, log) + {HashOf(env, e)}
  {
    assert (log + [e])[..|log|] == log;
  }

  /** Other tenants' entries never count as duplicates of the tenant's own. */
  lemma {:induction false} OwnHashes(env: Env, log: Log, e: StoredEntry)
    requires CollisionFree(env.digest) && AllApart(log, e.entry.tenant)
    ensures HashOf(env, e) in Hashes(env, log) <==> HashOf(env, e) in Hashes(env, Own(log, e.entry.tenant))
  {
    if log != [] {
      var n := |log| - 1;
      assert forall i :: 0 <= i < n ==> log[..n][i] == log[i];
      OwnHashes(env, log[..n], e);
      OwnNext(log, e.entry.tenant);
      HashesLast(env, log);
      HashesAppend(env, Own(log[..n], e.entry.tenant), log[n]);
      hide Own;
      hide Hashes;
      if HashOf(env, log[n]) == HashOf(env, e) {
        EqualHashes(env.digest, e.entry, log[n].entry);
      }
    }
  }

  /** So a tenant's log items are those of its own entries alone. */
  lemma {:induction false} LogItemsOfOwn(env: Env, log: Log, tenant: string)
    requires CollisionFree(env.digest) && AllApart(log, tenant)
    ensures LogItems(env, tenant, log) == LogItems(env, tenant, Own(log, tenant))
  {
    if log != [] {
      var n := |log| - 1;
      assert forall i :: 0 <= i < n ==> log[..n][i] == log[i];
      LogItemsOfOwn(env, log[..n], tenant);
      if log[n].entry.tenant == tenant {
        OwnHashes(env, log[..n], log[n]);
      }
    }
  }

  lemma FirstShadowsSecond(env: Env, first: StoredEntry, second: StoredEntry)
    requires first.entry.tenant != second.entry.tenant && HashOf(env, first) == HashOf(env, second)
    ensures LogItems(env, second.entry.tenant, [first, second]) == []
  {
    var t, log := second.entry.tenant, [first, second];
    assert log[..0] == [] && log[..2] == log;
    HashesNext(env, log, 0);
    LogItemsNext(env, t, log, 0);
    LogItemsNext(env, t, log, 1);
  }

  lemma SecondOnItsOwn(env: Env, first: StoredEntry, second: StoredEntry)
    requires first.entry.tenant != second.entry.tenant
    ensures |LogItems(env, second.entry.tenant, Own([first, second], second.entry.tenant))| == 1
  {
    OwnOfTwo(first, second);
    hide Own;
    OneLogItem(env, second);
  }

  lemma OwnOfTwo(first: StoredEntry, second: StoredEntry)
    requires first.entry.tenant != second.entry.tenant
    ensures Own([first, second], second.entry.tenant) == [second]
  {
    var keep := OwnedBy(second.entry.tenant);
    assert [first, second] == [first] + [second];
    FilterConcat([first], [second], keep);
    FilterOne(first, keep);
    FilterOne(second, keep);
  }

  lemma FilterOne(e: StoredEntry, keep: StoredEntry -> bool)
    ensures Filter([e], keep) == if keep(e) then [e] else []
  {
    assert [e][..0] == [];
  }

  lemma OneLogItem(env: Env, e: StoredEntry)
    ensures |LogItems(env, e.entry.tenant, [e])| == 1
  {
    var log := [e];
    assert log[..0] == [] && log[..1] == log;
    LogItemsNext(env, e.entry.tenant, log, 0);
  }

  predicate OnlyOf(log: Log, t: string, u: string) {
    forall i :: 0 <= i < |log| ==> log[i].entry.tenant in [t, u]
  }

  /**
    In every run in which only `t` and `u` log, the index holds for `t` what its own processed
    entries alone would make of it.
    */
  ghost predicate IndexedAlone(c: Config, t: string, u: string) {
    forall schedule :: OnlyOf(Reach(c, schedule).log, t, u) ==>
      LogPart(Reach(c, schedule).ix, t)
      == LogItems(c.env, t, Own(Reach(c, schedule).log[..ProcessedIn(c, schedule)], t))
  }

  function ProcessedIn(c: Config, schedule: seq<Action>): nat {
    var s := Reach(c, schedule);
    if Processed(s.worker) <= |s.log| then Processed(s.worker) else |s.log|
  }

  lemma ApartIndexedAlone(c: Config, t: string, u: string, schedule: seq<Action>)
    requires c.Valid() && CollisionFree(c.env.digest) && t != "" && NamesApart(t, u)
    requires OnlyOf(Reach(c, schedule).log, t, u)
    ensures LogPart(Reach(c, schedule).ix, t)
         == LogItems(c.env, t, Own(Reach(c, schedule).log[..ProcessedIn(c, schedule)], t))
  {
    IndexDeterminedByLog(c, schedule, t);
    hide Reach;
    var log := Reach(c, schedule).log;
    var done := log[..ProcessedIn(c, schedule)];
    assert forall i :: 0 <= i < |done| ==> done[i] == log[i];
    LogItemsOfOwn(c.env, done, t);
  }

  /** Services under which the two tenants' entries with one message hash alike. */
  lemma Collide(t: string, u: string) returns (a: string, b: string)
    requires t != u && !NamesApart(t, u)
    ensures a != "" && b != "" && t + [NUL] + a == u + [NUL] + b
  {
    if t + [NUL] <= u {
      var z := u[|t| + 1..];
      a, b := z + [NUL] + "s", "s";
      assert u == t + [NUL] + z;
    } else {
      var z := t[|u| + 1..];
      a, b := "s", z + [NUL] + "s";
      assert t == u + [NUL] + z;
    }
  }

  lemma SameInput(d: LogEntry, e: LogEntry)
    requires d.message == e.message && d.tenant + [NUL] + d.service == e.tenant + [NUL] + e.service
    ensures HashInput(d) == HashInput(e)
  {
    assert HashInput(d) == (d.tenant + [NUL] + d.service) + [NUL] + d.message;
    assert HashInput(e) == (e.tenant + [NUL] + e.service) + [NUL] + e.message;
  }

  /** What is published for an entry with that service and the message "m". */
  lemma PreparedInput(rules: Rules, t: string, a: string, u: string, b: string)
    requires rules.Faithful() && a != "" && b != "" && t + [NUL] + a == u + [NUL] + b
    ensures var d, e := Prepared(rules, t, 1, Plain(a)), Prepared(rules, u, 1, Plain(b));
            d.tenant == t && e.tenant == u && d.redacted && e.redacted && HashInput(d) == HashInput(e)
  {
    PreparedSafe(rules, t, 1, Plain(a));
    PreparedSafe(rules, u, 1, Plain(b));
    SameInput(Prepared(rules, t, 1, Plain(a)), Prepared(rules, u, 1, Plain(b)));
  }

  function Plain(service: string): LogEntry {
    LogEntry("", 0, service, "", "", "m", map[], false)
  }

  /** A run in which `u` logs first, then `t`, and the worker works off both. */
  lemma TwoEntries(c: Config, t: string, a: string, u: string, b: string) returns (schedule: seq<Action>)
    requires c.Valid() && c.cap > 0 && a != "" && b != ""
    requires var d, e := Prepared(c.rules, u, 1, Plain(b)), Prepared(c.rules, t, 1, Plain(a)); d.redacted && e.redacted
    ensures var d, e := Prepared(c.rules, u, 1, Plain(b)), Prepared(c.rules, t, 1, Plain(a));
            && Reach(c, schedule).log == [StoredEntry(1, d), StoredEntry(2, e)]
            && ProcessedIn(c, schedule) == 2
  {
    var first, second := StoreOne(u, Plain(b)), StoreOne(t, Plain(a));
    StoresOne(c, INITIAL, u, Plain(b));
    var s := From(c, INITIAL, first);
    StoresOne(c, s, t, Plain(a));
    Composed(c, INITIAL, first, second);
    var both := first + second;
    ReachKeeps(c, both);
    var d, e := Prepared(c.rules, u, 1, Plain(b)), Prepared(c.rules, t, 1, Plain(a));
    PersistOne([], d);
    PersistOne([StoredEntry(1, d)], e);
    hide Persist;
    hide Prepared;
    hide StoreOne;
    hide From;
    hide Inv;
    var more := WorkerCatchesUp(c, From(c, INITIAL, both));
    Composed(c, INITIAL, both, more);
    schedule := both + more;
  }

  lemma NotIndexedAlone(c: Config, t: string, u: string)
    requires c.Valid() && c.cap > 0 && CollisionFree(c.env.digest) && t != "" && !NamesApart(t, u)
    ensures !IndexedAlone(c, t, u)
  {
    var a, b := Collide(t, u);
    PreparedInput(c.rules, t, a, u, b);
    var schedule := TwoEntries(c, t, a, u, b);
    IndexDeterminedByLog(c, schedule, t);
    var first, second := Reach(c, schedule).log[0], Reach(c, schedule).log[1];
    hide Reach;
    hide Prepared;
    hide LogItems;
    hide Own;
    hide LogPart;
    assert Reach(c, schedule).log[..2] == [first, second];
    FirstShadowsSecond(c.env, first, second);
    SecondOnItsOwn(c.env, first, second);
    assert OnlyOf(Reach(c, schedule).log, t, u);
  }

  /**
    A tenant is indexed as if alone beside another exactly when their names are apart; names
    without NUL always are.
    */
  lemma IndexedAloneIff(c: Config, t: string, u: string)
    requires c.Valid() && c.cap > 0 && CollisionFree(c.env.digest) && t != ""
    ensures IndexedAlone(c, t, u) <==> NamesApart(t, u)
    ensures Free(t, NUL) && Free(u, NUL) ==> NamesApart(t, u)
  {
    PlainNamesApart(t, u);
    if NamesApart(t, u) {
      forall schedule | OnlyOf(Reach(c, schedule).log, t, u)
        ensures LogPart(Reach(c, schedule).ix, t)
             == LogItems(c.env, t, Own(Reach(c, schedule).log[..ProcessedIn(c, schedule)], t))
      {
        ApartIndexedAlone(c, t, u, schedule);
      }
    } else {
      NotIndexedAlone(c, t, u);
    }
  }

  lemma {:induction false} SamePositions(env: Env, tenant: string, a: Log, b: Log)
    requires |a| == |b| && forall i :: 0 <= i < |a| ==> a[i].entry == b[i].entry
    ensures FirstPositions(env, tenant, a) == FirstPositions(env, tenant, b)
  {
    if a != [] {
      var n := |a| - 1;
      SamePositions(env, tenant, a[..n], b[..n]);
      assert FirstOfItsKind(env, tenant, a, n) <==> FirstOfItsKind(env, tenant, b, n);
    }
  }

  /** The tenant's partition, told from the outside: it holds log items only, all of the log. */
  ghost predicate LogOnly(s: State, tenant: string) {
    && Processed(s.worker) == |s.log|
    && AllApart(s.log, tenant)
    && forall id :: id in s.kb.docs ==> s.kb.docs[id].tenant != tenant
  }

  lemma {:induction false} FilterAll<T>(s: seq<T>, keep: T -> bool)
    requires forall i :: 0 <= i < |s| ==> keep(s[i])
    ensures Filter(s, keep) == s
  {
    if s != [] {
      FilterAll(s[..|s| - 1], keep);
    }
  }

  // ----- semantic search -----

  lemma SameEntries(a: Log, b: Log)
    requires Contents(a) == Contents(b)
    ensures |a| == |b| && forall i :: 0 <= i < |a| ==> a[i].entry == b[i].entry
  {
    assert |Contents(a)| == |a| && |Contents(b)| == |b|;
    forall i | 0 <= i < |a|
      ensures a[i].entry == b[i].entry
    {
      assert Contents(a)[i] == Contents(b)[i];
    }
  }

  predicate WorkedOff(s: State, tenant: string) {
    Processed(s.worker) == |s.log| && AllApart(s.log, tenant)
  }

  /** References to documents that differ in their number only. */
  ghost predicate TwinDocs(s: State, t: State, tenant: string, ref: string, other: string) {
    var d, e := DocByRef(s.kb.docs, tenant, ref), DocByRef(t.kb.docs, tenant, other);
    d.Some? && e.Some? && e.value == d.value.(id := e.value.id)
  }

  /** The tenant's documents stand at the same positions among its items, the same ones in the same order. */
  ghost predicate SamePattern(s: State, t: State, tenant: string) {
    var a, b := Partition(s.ix, tenant), Partition(t.ix, tenant);
    && |a| == |b|
    && forall i :: 0 <= i < |a| ==>
         && IsLogItem(a[i]) == IsLogItem(b[i])
         && (!IsLogItem(a[i]) ==> TwinDocs(s, t, tenant, a[i].ref, b[i].ref))
  }

  /** References to the `n`-th of the tenant's own entries in both logs. */
  predicate BothRefer(s: State, t: State, tenant: string, ref: string, other: string, n: nat) {
    && n < |Own(s.log, tenant)| && n < |Own(t.log, tenant)|
    && ref == LogRef(Own(s.log, tenant)[n].id) && other == LogRef(Own(t.log, tenant)[n].id)
  }

  ghost predicate TwinRefs(s: State, t: State, tenant: string, isLog: bool, ref: string, other: string) {
    if isLog then exists n :: BothRefer(s, t, tenant, ref, other, n)
    else TwinDocs(s, t, tenant, ref, other)
  }

  /** What the tenant sees is the same: score, kind and text, of the same entry or document. */
  ghost predicate TwinHits(s: State, t: State, tenant: string, h: SemanticHit, g: SemanticHit) {
    g == h.(ref := g.ref) && TwinRefs(s, t, tenant, h.sourceType == LOG_TYPE, h.ref, g.ref)
  }

  lemma LogPartOfOwn(c: Config, s: State, tenant: string)
    requires Inv(c, s) && CollisionFree(c.env.digest) && tenant != "" && WorkedOff(s, tenant)
    ensures LogPart(s.ix, tenant) == LogItems(c.env, tenant, Own(s.log, tenant))
  {
    PartDetermined(c, s, tenant);
    assert s.log[..|s.log|] == s.log;
    LogItemsOfOwn(c.env, s.log, tenant);
  }

  /** Log items at the same position come from the same own entry. */
  lemma TwinLogItems(c: Config, s: State, d: Config, t: State, tenant: string, p: nat) returns (n: nat)
    requires Inv(c, s) && Inv(d, t) && c.env == d.env && CollisionFree(c.env.digest) && tenant != ""
    requires WorkedOff(s, tenant) && WorkedOff(t, tenant) && SamePattern(s, t, tenant)
    requires Contents(Own(s.log, tenant)) == Contents(Own(t.log, tenant))
    requires p < |Partition(s.ix, tenant)| && IsLogItem(Partition(s.ix, tenant)[p])
    ensures n < |Own(s.log, tenant)| == |Own(t.log, tenant)|
    ensures Partition(s.ix, tenant)[p] == ItemOf(c.env, Own(s.log, tenant)[n])
    ensures Partition(t.ix, tenant)[p] == ItemOf(c.env, Own(t.log, tenant)[n])
  {
    var own, other := Own(s.log, tenant), Own(t.log, tenant);
    LogPartOfOwn(c, s, tenant);
    LogPartOfOwn(d, t, tenant);
    var j := FilterAligned(Partition(s.ix, tenant), Partition(t.ix, tenant), IsLogItem, p);
    hide *;
    SameEntries(own, other);
    SamePositions(c.env, tenant, own, other);
    LogItemsAreFirsts(c.env, tenant, own);
    LogItemsAreFirsts(c.env, tenant, other);
    n := FirstPositions(c.env, tenant, own)[j];
  }

  /** Entries found through references, within the two tenants' own. */
  lemma LogTwins(c: Config, s: State, d: Config, t: State, tenant: string, n: nat)
    requires Inv(c, s) && Inv(d, t) && |s.log| < UINT64_LIMIT && |t.log| < UINT64_LIMIT
    requires Contents(Own(s.log, tenant)) == Contents(Own(t.log, tenant)) && n < |Own(s.log, tenant)|
    ensures n < |Own(t.log, tenant)|
    ensures var x, y := Own(s.log, tenant)[n], Own(t.log, tenant)[n];
            && x.entry == y.entry
            && Snippet(s.log, s.kb.docs, tenant, LogRef(x.id)) == x.entry.message
            && Snippet(t.log, t.kb.docs, tenant, LogRef(y.id)) == y.entry.message
  {
    SameEntries(Own(s.log, tenant), Own(t.log, tenant));
    OwnResolves(c, s, tenant, n);
    OwnResolves(d, t, tenant, n);
  }

  lemma OwnResolves(c: Config, s: State, tenant: string, n: nat)
    requires Inv(c, s) && |s.log| < UINT64_LIMIT && n < |Own(s.log, tenant)|
    ensures var x := Own(s.log, tenant)[n]; Snippet(s.log, s.kb.docs, tenant, LogRef(x.id)) == x.entry.message
  {
    var x := Own(s.log, tenant)[n];
    InvNumbered(c, s);
    OwnAscending(s.log, tenant);
    assert Lookup(s.log, tenant, x.id) == Some(x);
    hide Own;
    hide Inv;
    hide Snippet;
    LogRefResolves(s.log, s.kb.docs, tenant, x.id - 1);
  }

  lemma InvNumbered(c: Config, s: State)
    requires Inv(c, s)
    ensures Numbered(s.log)
  {
  }

  lemma DocSnippets(s: State, t: State, tenant: string, m: VecModel, d: Doc, e: Doc)
    requires DocByRef(s.kb.docs, tenant, KbRef(d)) == Some(d) && DocByRef(t.kb.docs, tenant, KbRef(e)) == Some(e)
    requires e == d.(id := e.id)
    ensures Snippet(s.log, s.kb.docs, tenant, KbRef(d)) == Snippet(t.log, t.kb.docs, tenant, KbRef(e))
    ensures DocItem(m, d).vec == DocItem(m, e).vec && DocItem(m, d).sourceType == DocItem(m, e).sourceType != LOG_TYPE
  {
    hide DocByRef;
    assert KbRef(d)[0] == 'k' && KbRef(e)[0] == 'k' && LOG_PREFIX[0] == 'l';
    assert KindName(d.kind)[0] != LOG_TYPE[0];
  }

  /** Items at the same position are twins. */
  lemma TwinItems(c: Config, s: State, d: Config, t: State, tenant: string, p: nat)
    requires Inv(c, s) && Inv(d, t) && c.env == d.env && CollisionFree(c.env.digest) && tenant != ""
    requires |s.log| < UINT64_LIMIT && |t.log| < UINT64_LIMIT
    requires WorkedOff(s, tenant) && WorkedOff(t, tenant) && SamePattern(s, t, tenant)
    requires Contents(Own(s.log, tenant)) == Contents(Own(t.log, tenant))
    requires p < |Partition(s.ix, tenant)| == |Partition(t.ix, tenant)|
    ensures var x, y := Partition(s.ix, tenant)[p], Partition(t.ix, tenant)[p];
            && x.vec == y.vec && x.sourceType == y.sourceType
            && TwinRefs(s, t, tenant, x.sourceType == LOG_TYPE, x.ref, y.ref)
            && Snippet(s.log, s.kb.docs, tenant, x.ref) == Snippet(t.log, t.kb.docs, tenant, y.ref)
  {
    var x, y := Partition(s.ix, tenant)[p], Partition(t.ix, tenant)[p];
    assert IsLogItem(x) == IsLogItem(y);
    if IsLogItem(x) {
      var n := TwinLogItems(c, s, d, t, tenant, p);
      LogTwins(c, s, d, t, tenant, n);
      hide Inv;
      hide Snippet;
      assert BothRefer(s, t, tenant, x.ref, y.ref, n);
    } else {
      assert TwinDocs(s, t, tenant, x.ref, y.ref);
      var doc := ItemOfDoc(c, s, tenant, p);
      var twin := ItemOfDoc(d, t, tenant, p);
      DocSnippets(s, t, tenant, c.env.model, doc, twin);
    }
  }

  /**
    Two runs, of any schedules and sizes, whose logs have the same projection onto a tenant,
    whose workers have caught up, and in whose indexes the tenant's documents stand in the
    same pattern, for example all first: they show the tenant the same hits, the same scores
    and texts in the same order, of the same entries and documents. IDs and numbers may
    differ; those of the tenant's own entries are in ascending order in both logs.
    */
  lemma HitsIsolation(c: Config, one: seq<Action>, d: Config, two: seq<Action>,
                      tenant: string, rank: Ranker, query: Vec, k: int)
    requires c.Valid() && d.Valid() && c.env == d.env && CollisionFree(c.env.digest)
    requires ValidRanker(rank) && tenant != ""
    requires |Reach(c, one).log| < UINT64_LIMIT && |Reach(d, two).log| < UINT64_LIMIT
    requires WorkedOff(Reach(c, one), tenant) && WorkedOff(Reach(d, two), tenant)
    requires SamePattern(Reach(c, one), Reach(d, two), tenant)
    requires Contents(Own(Reach(c, one).log, tenant)) == Contents(Own(Reach(d, two).log, tenant))
    ensures Ascending(Own(Reach(c, one).log, tenant)) && Ascending(Own(Reach(d, two).log, tenant))
    ensures var h, g := Shown(Reach(c, one), tenant, rank, query, k), Shown(Reach(d, two), tenant, rank, query, k);
            |h| == |g| && forall i :: 0 <= i < |h| ==> TwinHits(Reach(c, one), Reach(d, two), tenant, h[i], g[i])
  {
    var u, v := Reach(c, one), Reach(d, two);
    var a, b := Partition(u.ix, tenant), Partition(v.ix, tenant);
    assert |a| == |b|;
    ReachKeeps(c, one);
    ReachKeeps(d, two);
    InvNumbered(c, u);
    InvNumbered(d, v);
    OwnAscending(u.log, tenant);
    OwnAscending(v.log, tenant);
    ShownAt(c, one, tenant, rank, query, k);
    ShownAt(d, two, tenant, rank, query, k);
    hide *;
    forall p | 0 <= p < |a|
      ensures a[p].vec == b[p].vec && a[p].sourceType == b[p].sourceType
      ensures TwinRefs(u, v, tenant, a[p].sourceType == LOG_TYPE, a[p].ref, b[p].ref)
      ensures Snippet(u.log, u.kb.docs, tenant, a[p].ref) == Snippet(v.log, v.kb.docs, tenant, b[p].ref)
    {
      TwinItems(c, u, d, v, tenant, p);
    }
    SameVectors(a, b, query);
    var order, h, g := rank(Scores(a, query)), Shown(u, tenant, rank, query, k), Shown(v, tenant, rank, query, k);
    forall i | 0 <= i < |h|
      ensures TwinHits(u, v, tenant, h[i], g[i])
    {
      assert h[i] == ShownItem(u, tenant, a[order[i]], query) && g[i] == ShownItem(v, tenant, b[order[i]], query);
      TwinShown(u, v, tenant, a[order[i]], b[order[i]], query);
    }
  }

  lemma SameVectors(a: seq<Item>, b: seq<Item>, query: Vec)
    requires |a| == |b| && forall p :: 0 <= p < |a| ==> a[p].vec == b[p].vec
    ensures Scores(a, query) == Scores(b, query)
  {
  }

  lemma TwinShown(s: State, t: State, tenant: string, x: Item, y: Item, query: Vec)
    requires x.vec == y.vec && x.sourceType == y.sourceType
    requires TwinRefs(s, t, tenant, x.sourceType == LOG_TYPE, x.ref, y.ref)
    requires Snippet(s.log, s.kb.docs, tenant, x.ref) == Snippet(t.log, t.kb.docs, tenant, y.ref)
    ensures TwinHits(s, t, tenant, ShownItem(s, tenant, x, query), ShownItem(t, tenant, y, query))
  {
    hide Snippet;
    hide TwinRefs;
  }

  /** Such a tenant's partition holds log items only, as many in both runs. */
  lemma LogOnlyPattern(c: Config, s: State, d: Config, t: State, tenant: string)
    requires Inv(c, s) && Inv(d, t) && c.env == d.env && CollisionFree(c.env.digest) && tenant != ""
    requires LogOnly(s, tenant) && LogOnly(t, tenant)
    requires Contents(Own(s.log, tenant)) == Contents(Own(t.log, tenant))
    ensures SamePattern(s, t, tenant)
  {
    AllFromLog(c, s, tenant);
    AllFromLog(d, t, tenant);
    LogOnlyWorkedOff(s, tenant);
    LogOnlyWorkedOff(t, tenant);
    LogPartOfOwn(c, s, tenant);
    LogPartOfOwn(d, t, tenant);
    hide *;
    SameEntries(Own(s.log, tenant), Own(t.log, tenant));
    SamePositions(c.env, tenant, Own(s.log, tenant), Own(t.log, tenant));
    LogItemsAreFirsts(c.env, tenant, Own(s.log, tenant));
    LogItemsAreFirsts(c.env, tenant, Own(t.log, tenant));
    NoDocsPattern(s, t, tenant);
  }

  lemma NoDocsPattern(s: State, t: State, tenant: string)
    requires var a, b := Partition(s.ix, tenant), Partition(t.ix, tenant);
             |a| == |b| && forall i :: 0 <= i < |a| ==> IsLogItem(a[i]) && IsLogItem(b[i])
    ensures SamePattern(s, t, tenant)
  {
    hide TwinDocs;
  }

  lemma AllFromLog(c: Config, s: State, tenant: string)
    requires Inv(c, s) && LogOnly(s, tenant)
    ensures var part := Partition(s.ix, tenant);
            (forall i :: 0 <= i < |part| ==> IsLogItem(part[i])) && LogPart(s.ix, tenant) == part
  {
    var part := Partition(s.ix, tenant);
    forall i | 0 <= i < |part|
      ensures IsLogItem(part[i])
    {
      LogOrDoc(c.env.model, s.kb.docs, s.ix, tenant, i);
    }
    FilterAll(part, IsLogItem);
  }

  ghost function PositionOf(s: State, t: State, tenant: string, ref: string, other: string): (n: nat)
    requires exists n :: BothRefer(s, t, tenant, ref, other, n)
    ensures BothRefer(s, t, tenant, ref, other, n)
  {
    var n :| BothRefer(s, t, tenant, ref, other, n);
    n
  }

  /**
    For a tenant without documents of its own the hits agree up to a renaming of the IDs that
    keeps their order, whatever documents others have.
    */
  lemma SemanticIsolation(c: Config, one: seq<Action>, d: Config, two: seq<Action>,
                          tenant: string, rank: Ranker, query: Vec, k: int)
    returns (r: Log, s: Log)
    requires c.Valid() && d.Valid() && c.env == d.env && CollisionFree(c.env.digest)
    requires ValidRanker(rank) && tenant != ""
    requires |Reach(c, one).log| < UINT64_LIMIT && |Reach(d, two).log| < UINT64_LIMIT
    requires LogOnly(Reach(c, one), tenant) && LogOnly(Reach(d, two), tenant)
    requires Contents(Own(Reach(c, one).log, tenant)) == Contents(Own(Reach(d, two).log, tenant))
    ensures SameButIds(r, s)
    ensures var h, g := Shown(Reach(c, one), tenant, rank, query, k), Shown(Reach(d, two), tenant, rank, query, k);
            && |h| == |g| == |r|
            && forall i :: 0 <= i < |h| ==>
                 && g[i] == h[i].(ref := g[i].ref)
                 && h[i].ref == LogRef(r[i].id) && g[i].ref == LogRef(s[i].id)
  {
    var u, v := Reach(c, one), Reach(d, two);
    ReachKeeps(c, one);
    ReachKeeps(d, two);
    LogOnlyPattern(c, u, d, v, tenant);
    LogOnlyWorkedOff(u, tenant);
    LogOnlyWorkedOff(v, tenant);
    hide *;
    HitsIsolation(c, one, d, two, tenant, rank, query, k);
    LogHits(c, one, tenant, rank, query, k);
    r, s := SameEntriesShown(u, v, tenant, Shown(u, tenant, rank, query, k), Shown(v, tenant, rank, query, k));
  }

  lemma LogOnlyWorkedOff(s: State, tenant: string)
    requires LogOnly(s, tenant)
    ensures WorkedOff(s, tenant)
  {
  }

  lemma LogHits(c: Config, schedule: seq<Action>, tenant: string, rank: Ranker, query: Vec, k: int)
    requires c.Valid() && ValidRanker(rank) && |Reach(c, schedule).log| < UINT64_LIMIT && tenant != ""
    requires LogOnly(Reach(c, schedule), tenant)
    ensures var h := Shown(Reach(c, schedule), tenant, rank, query, k);
            forall i :: 0 <= i < |h| ==> h[i].sourceType == LOG_TYPE
  {
    ReachKeeps(c, schedule);
    AllFromLog(c, Reach(c, schedule), tenant);
    ShownAt(c, schedule, tenant, rank, query, k);
    hide Reach;
    hide Inv;
    hide Shown;
    hide Snippet;
    hide LogOnly;
  }

  /** The entries behind hits on log items, in both runs. */
  lemma SameEntriesShown(u: State, v: State, tenant: string, h: seq<SemanticHit>, g: seq<SemanticHit>)
    returns (r: Log, s: Log)
    requires |h| == |g| && forall i :: 0 <= i < |h| ==> TwinHits(u, v, tenant, h[i], g[i])
    requires forall i :: 0 <= i < |h| ==> h[i].sourceType == LOG_TYPE
    requires Ascending(Own(u.log, tenant)) && Ascending(Own(v.log, tenant))
    requires Contents(Own(u.log, tenant)) == Contents(Own(v.log, tenant))
    ensures SameButIds(r, s) && |r| == |h|
    ensures forall i :: 0 <= i < |h| ==>
              && g[i] == h[i].(ref := g[i].ref)
              && h[i].ref == LogRef(r[i].id) && g[i].ref == LogRef(s[i].id)
  {
    hide Own;
    hide Ascending;
    hide Contents;
    forall i | 0 <= i < |h|
      ensures exists n :: BothRefer(u, v, tenant, h[i].ref, g[i].ref, n)
    {
      assert TwinHits(u, v, tenant, h[i], g[i]);
    }
    var picks := seq(|h|, i requires 0 <= i < |h| => PositionOf(u, v, tenant, h[i].ref, g[i].ref));
    r, s := Pick(Own(u.log, tenant), picks), Pick(Own(v.log, tenant), picks);
    PickSame(Own(u.log, tenant), Own(v.log, tenant), picks);
    assert forall i :: 0 <= i < |h| ==> TwinHits(u, v, tenant, h[i], g[i]);
  }

  // ----- tenants with documents -----

  /** The log has been worked off and every filed document is indexed. */
  predicate CaughtUp(s: State, tenant: string) {
    Processed(s.worker) == |s.log| && AllApart(s.log, tenant) && s.kb.filed == {}
  }

  /** The filed documents of a tenant, each once. */
  predicate ListsDocs(docs: map<nat, Doc>, tenant: string, ds: seq<Doc>) {
    && (forall i :: 0 <= i < |ds| ==> ds[i].id in docs && docs[ds[i].id] == ds[i] && ds[i].tenant == tenant)
    && (forall i, j :: 0 <= i < j < |ds| ==> ds[i].id != ds[j].id)
    && (forall id :: id in docs && docs[id].tenant == tenant ==> docs[id] in ds)
  }

  predicate SameDocs(ds: seq<Doc>, es: seq<Doc>) {
    |ds| == |es| && forall i :: 0 <= i < |ds| ==> es[i] == ds[i].(id := es[i].id)
  }

  function DocItems(m: VecModel, ds: seq<Doc>): (items: seq<Item>)
    ensures |items| == |ds| && forall i :: 0 <= i < |ds| ==> items[i] == DocItem(m, ds[i])
  {
    seq(|ds|, i requires 0 <= i < |ds| => DocItem(m, ds[i]))
  }

  lemma DocItemsDistinct(m: VecModel, ds: seq<Doc>)
    requires forall i, j :: 0 <= i < j < |ds| ==> ds[i].id != ds[j].id
    ensures Distinct(DocItems(m, ds))
  {
    var items := DocItems(m, ds);
    forall i, j | 0 <= i < j < |items|
      ensures items[i] != items[j]
    {
      if items[i] == items[j] {
        assert items[i].ref == KbRef(ds[i]) && items[j].ref == KbRef(ds[j]);
        KbRefInjective(ds[i], ds[j]);
      }
    }
  }

  lemma PartitionDistinct(c: Config, s: State, tenant: string)
    requires Inv(c, s)
    ensures Distinct(Partition(s.ix, tenant))
  {
    if tenant in s.ix.items {
      assert Tidy(tenant, s.ix.items[tenant]);
    }
  }

  lemma DocsInv(c: Config, s: State)
    requires Inv(c, s)
    ensures DocsBehind(c.env.model, s.kb.docs, s.ix) && DocsThere(c.env.model, s.kb, s.ix)
  {
  }

  lemma ListedThere(c: Config, s: State, tenant: string, ds: seq<Doc>, i: nat)
    requires Inv(c, s) && tenant != "" && s.kb.filed == {} && ListsDocs(s.kb.docs, tenant, ds) && i < |ds|
    ensures DocItem(c.env.model, ds[i]) in Partition(s.ix, tenant) && !IsLogItem(DocItem(c.env.model, ds[i]))
  {
    DocsInv(c, s);
    hide Inv;
    hide DocsBehind;
    assert ds[i].id in s.kb.docs && s.kb.docs[ds[i].id] == ds[i];
    assert KindName(ds[i].kind)[0] != LOG_TYPE[0];
  }

  lemma ThereListed(c: Config, s: State, tenant: string, ds: seq<Doc>, p: nat) returns (i: nat)
    requires Inv(c, s) && ListsDocs(s.kb.docs, tenant, ds)
    requires p < |Partition(s.ix, tenant)| && !IsLogItem(Partition(s.ix, tenant)[p])
    ensures i < |ds| && Partition(s.ix, tenant)[p] == DocItem(c.env.model, ds[i])
  {
    DocsInv(c, s);
    hide Inv;
    hide DocsThere;
    LogOrDoc(c.env.model, s.kb.docs, s.ix, tenant, p);
    hide DocsBehind;
    hide Partition;
    hide DocItem;
    var id :| id in s.kb.docs && s.kb.docs[id].tenant == tenant
              && Partition(s.ix, tenant)[p] == DocItem(c.env.model, s.kb.docs[id]);
    i :| 0 <= i < |ds| && ds[i] == s.kb.docs[id];
  }

  /** The items of a tenant that do not come from the log are those of its documents. */
  lemma DocMembers(c: Config, s: State, tenant: string, ds: seq<Doc>, x: Item)
    requires Inv(c, s) && tenant != "" && s.kb.filed == {} && ListsDocs(s.kb.docs, tenant, ds)
    ensures x in DocItems(c.env.model, ds) <==> x in Partition(s.ix, tenant) && !IsLogItem(x)
  {
    hide *;
    var part, items := Partition(s.ix, tenant), DocItems(c.env.model, ds);
    if x in items {
      var i :| 0 <= i < |items| && items[i] == x;
      ListedThere(c, s, tenant, ds, i);
    }
    if x in part && !IsLogItem(x) {
      var p :| 0 <= p < |part| && part[p] == x;
      var i := ThereListed(c, s, tenant, ds, p);
      assert items[i] == x;
    }
  }

  /** The partition holds the tenant's log items and its documents' items, in some order. */
  lemma PartitionMembers(c: Config, s: State, tenant: string, ds: seq<Doc>)
    requires Inv(c, s) && CollisionFree(c.env.digest) && tenant != ""
    requires CaughtUp(s, tenant) && ListsDocs(s.kb.docs, tenant, ds)
    ensures multiset(Partition(s.ix, tenant))
         == multiset(LogItems(c.env, tenant, Own(s.log, tenant)) + DocItems(c.env.model, ds))
  {
    var part := Partition(s.ix, tenant);
    var logs, docs := LogItems(c.env, tenant, Own(s.log, tenant)), DocItems(c.env.model, ds);
    PartDetermined(c, s, tenant);
    assert s.log[..|s.log|] == s.log;
    LogItemsOfOwn(c.env, s.log, tenant);
    PartitionDistinct(c, s, tenant);
    FilterDistinct(part, IsLogItem);
    FilterElements(part, IsLogItem);
    DocItemsDistinct(c.env.model, ds);
    hide *;
    forall x
      ensures x in docs <==> x in part && !IsLogItem(x)
    {
      DocMembers(c, s, tenant, ds, x);
    }
    JoinedMembers(part, logs, docs);
  }

  lemma JoinedMembers(part: seq<Item>, logs: seq<Item>, docs: seq<Item>)
    requires Distinct(part) && Distinct(logs) && Distinct(docs)
    requires forall x :: x in logs <==> x in part && IsLogItem(x)
    requires forall x :: x in docs <==> x in part && !IsLogItem(x)
    ensures multiset(part) == multiset(logs + docs)
  {
    var all := logs + docs;
    forall i, j | 0 <= i < j < |all|
      ensures all[i] != all[j]
    {
      if i < |logs| <= j {
        assert all[i] in logs && all[j] in docs;
      }
    }
    SameMembers(part, all);
  }

  lemma ScoresPermuted(one: seq<Item>, two: seq<Item>, query: Vec)
    requires multiset(one) == multiset(two)
    ensures multiset(Scores(one, query)) == multiset(Scores(two, query))
  {
    MappedPermuted(one, two, ScoreOf(query));
    assert Mapped(one, ScoreOf(query)) == Scores(one, query);
    assert Mapped(two, ScoreOf(query)) == Scores(two, query);
  }

  /** The same entries and documents, under other IDs, score alike. */
  lemma SameItemScores(env: Env, tenant: string, a: Log, b: Log, ds: seq<Doc>, es: seq<Doc>, query: Vec)
    requires Contents(a) == Contents(b) && SameDocs(ds, es)
    ensures Scores(LogItems(env, tenant, a) + DocItems(env.model, ds), query)
         == Scores(LogItems(env, tenant, b) + DocItems(env.model, es), query)
  {
    SameEntries(a, b);
    SamePositions(env, tenant, a, b);
    LogItemsAreFirsts(env, tenant, a);
    LogItemsAreFirsts(env, tenant, b);
    hide LogItems;
    hide Contents;
    var x, y := LogItems(env, tenant, a) + DocItems(env.model, ds), LogItems(env, tenant, b) + DocItems(env.model, es);
    forall i | 0 <= i < |x|
      ensures x[i].vec == y[i].vec
    {
    }
  }

  /** Two runs whose logs and documents agree on a tenant score alike for it. */
  lemma SameScoresWithDocs(c: Config, s: State, d: Config, t: State, tenant: string,
                           ds: seq<Doc>, es: seq<Doc>, query: Vec)
    requires Inv(c, s) && Inv(d, t) && c.env == d.env && CollisionFree(c.env.digest) && tenant != ""
    requires CaughtUp(s, tenant) && CaughtUp(t, tenant)
    requires ListsDocs(s.kb.docs, tenant, ds) && ListsDocs(t.kb.docs, tenant, es) && SameDocs(ds, es)
    requires Contents(Own(s.log, tenant)) == Contents(Own(t.log, tenant))
    ensures multiset(Scores(Partition(s.ix, tenant), query)) == multiset(Scores(Partition(t.ix, tenant), query))
  {
    hide *;
    var m, a, b := c.env.model, Own(s.log, tenant), Own(t.log, tenant);
    PartitionMembers(c, s, tenant, ds);
    PartitionMembers(d, t, tenant, es);
    ScoresPermuted(Partition(s.ix, tenant), LogItems(c.env, tenant, a) + DocItems(m, ds), query);
    ScoresPermuted(Partition(t.ix, tenant), LogItems(c.env, tenant, b) + DocItems(m, es), query);
    SameItemScores(c.env, tenant, a, b, ds, es, query);
  }

  /** Hits that score alike are answered alike. */
  lemma SameGrounding(h: seq<SemanticHit>, g: seq<SemanticHit>, minScore: real)
    requires |h| == |g| && forall i :: 0 <= i < |h| ==> h[i].score == g[i].score
    requires forall i, j :: 0 <= i < j < |h| ==> h[i].score >= h[j].score
    ensures Grounded(h, minScore).refused == Grounded(g, minScore).refused
    ensures |Grounded(h, minScore).citations| == |Grounded(g, minScore).citations|
  {
    RelevantIsPrefix(h, minScore);
    RelevantIsPrefix(g, minScore);
    var m, n := |Filter(h, AtLeast(minScore))|, |Filter(g, AtLeast(minScore))|;
    hide Filter;
    assert m < |h| ==> h[m].score < minScore && n <= m;
    assert n < |h| ==> g[n].score < minScore && m <= n;
  }

  /**
    A tenant that has documents of its own, the same ones in both runs under any numbers: its
    searches show the same scores in the same order, and its questions are refused in both
    runs or in neither, and cite equally many sources.
    */
  lemma ScoresIsolation(c: Config, one: seq<Action>, d: Config, two: seq<Action>, tenant: string,
                        ds: seq<Doc>, es: seq<Doc>, rank: Ranker, query: Vec, k: int, minScore: real)
    requires c.Valid() && d.Valid() && c.env == d.env && CollisionFree(c.env.digest)
    requires ValidRanker(rank) && tenant != ""
    requires |Reach(c, one).log| < UINT64_LIMIT && |Reach(d, two).log| < UINT64_LIMIT
    requires CaughtUp(Reach(c, one), tenant) && CaughtUp(Reach(d, two), tenant)
    requires ListsDocs(Reach(c, one).kb.docs, tenant, ds) && ListsDocs(Reach(d, two).kb.docs, tenant, es)
    requires SameDocs(ds, es)
    requires Contents(Own(Reach(c, one).log, tenant)) == Contents(Own(Reach(d, two).log, tenant))
    ensures var h, g := Shown(Reach(c, one), tenant, rank, query, k), Shown(Reach(d, two), tenant, rank, query, k);
            && |h| == |g| && (forall i :: 0 <= i < |h| ==> h[i].score == g[i].score)
            && Grounded(h, minScore).refused == Grounded(g, minScore).refused
            && |Grounded(h, minScore).citations| == |Grounded(g, minScore).citations|
  {
    hide *;
    var u, v := Reach(c, one), Reach(d, two);
    ReachKeeps(c, one);
    ReachKeeps(d, two);
    SameScoresWithDocs(c, u, d, v, tenant, ds, es, query);
    SameShownScores(c, one, d, two, tenant, rank, query, k);
    ShownAt(c, one, tenant, rank, query, k);
    SameGrounding(Shown(u, tenant, rank, query, k), Shown(v, tenant, rank, query, k), minScore);
  }

  lemma SameShownScores(c: Config, one: seq<Action>, d: Config, two: seq<Action>,
                        tenant: string, rank: Ranker, query: Vec, k: int)
    requires c.Valid() && d.Valid() && ValidRanker(rank) && tenant != ""
    requires |Reach(c, one).log| < UINT64_LIMIT && |Reach(d, two).log| < UINT64_LIMIT
    requires multiset(Scores(Partition(Reach(c, one).ix, tenant), query))
          == multiset(Scores(Partition(Reach(d, two).ix, tenant), query))
    ensures var h, g := Shown(Reach(c, one), tenant, rank, query, k), Shown(Reach(d, two), tenant, rank, query, k);
            |h| == |g| && forall i :: 0 <= i < |h| ==> h[i].score == g[i].score
  {
    var a, b := Partition(Reach(c, one).ix, tenant), Partition(Reach(d, two).ix, tenant);
    TopScoresSame(rank, a, b, query, k);
    TopHitsOptimal(rank, a, query, k);
    TopHitsOptimal(rank, b, query, k);
    ShownAt(c, one, tenant, rank, query, k);
    ShownAt(d, two, tenant, rank, query, k);
    hide Reach;
    hide TopHits;
    hide Shown;
    hide Snippet;
  }
}
