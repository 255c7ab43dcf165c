/**
  The append-only log store, scoped by tenant. Case folding (`lower`) is a parameter.
  */
module LogStore {
  import opened Filters
  import opened Model
  import opened Text

  /** The log, oldest entry first. */
  type Log = seq<StoredEntry>

  datatype Query = Query(
    tenant: string, service: string, level: string, contains: string,
    since: Instant, until: Instant, limit: int)

  type Fold = string -> string

  /** The entry with position `i` has the ID `i + 1`. */
  predicate Numbered(entries: Log) {
    forall i :: 0 <= i < |entries| ==> entries[i].id == i + 1
  }

  /** The log after a batch: its redacted entries appended in order, with the next IDs. */
  function Persist(entries: Log, batch: seq<LogEntry>): (r: Log)
    ensures |entries| <= |r| && r[..|entries|] == entries
    ensures Numbered(entries) ==> Numbered(r)
  {
    if batch == [] then entries
    else
      var n := |batch| - 1;
      var before := Persist(entries, batch[..n]);
      if batch[n].redacted then before + [StoredEntry(|before| + 1, batch[n])] else before
  }

  function Contents(entries: Log): (c: seq<LogEntry>)
    ensures |c| == |entries| && forall i :: 0 <= i < |c| ==> c[i] == entries[i].entry
  {
    seq(|entries|, i requires 0 <= i < |entries| => entries[i].entry)
  }

  predicate AllRedacted(batch: seq<LogEntry>) {
    forall i :: 0 <= i < |batch| ==> batch[i].redacted
  }

  function IsRedacted(e: LogEntry): bool {
    e.redacted
  }

  /** The entries that the guards of writer and store let through. */
  function Redacted(s: seq<LogEntry>): (r: seq<LogEntry>)
    ensures AllRedacted(r)
  {
    FilterElements(s, IsRedacted);
    var r := Filter(s, IsRedacted);
    assert forall i :: 0 <= i < |r| ==> r[i] in r;
    r
  }

  lemma RedactedNext(s: seq<LogEntry>, e: LogEntry)
    ensures Redacted(s + [e]) == Redacted(s) + if e.redacted then [e] else []
  {
    assert (s + [e])[..|s|] == s;
  }

  lemma NoneRedacted()
    ensures Redacted([]) == []
  {
  }

  /** Redacted entries all pass the guard. */
  lemma {:induction false} NothingDropped(s: seq<LogEntry>)
    requires AllRedacted(s)
    ensures Redacted(s) == s
  {
    if s != [] {
      NothingDropped(s[..|s| - 1]);
    }
  }

  /** The store takes in the redacted entries of a batch, and no others. */
  lemma {:induction false} PersistRedacted(entries: Log, batch: seq<LogEntry>)
    ensures Contents(Persist(entries, batch)) == Contents(entries) + Redacted(batch)
  {
    if batch == [] {
      NoneRedacted();
    } else {
      var n := |batch| - 1;
      PersistRedacted(entries, batch[..n]);
      RedactedNext(batch[..n], batch[n]);
      assert batch == batch[..n] + [batch[n]];
      hide Redacted;
      var before := Persist(entries, batch[..n]);
      if batch[n].redacted {
        assert Contents(before + [StoredEntry(|before| + 1, batch[n])]) == Contents(before) + [batch[n]];
      }
    }
  }

  /** So it drops nothing from a batch of redacted entries. */
  lemma PersistContents(entries: Log, batch: seq<LogEntry>)
    requires AllRedacted(batch)
    ensures Contents(Persist(entries, batch)) == Contents(entries) + batch
  {
    PersistRedacted(entries, batch);
    NothingDropped(batch);
  }

  lemma PersistOne(entries: Log, e: LogEntry)
    requires e.redacted
    ensures Persist(entries, [e]) == entries + [StoredEntry(|entries| + 1, e)]
  {
    var batch := [e];
    assert batch[..0] == [];
    assert Persist(entries, batch[..0]) == entries;
  }

  predicate Matches(lower: Fold, e: StoredEntry, q: Query) {
    && e.entry.tenant == q.tenant
    && (q.service == "" || e.entry.service == q.service)
    && (q.level == "" || e.entry.level == q.level)
    && (q.contains == "" || Occurs(lower(e.entry.message), lower(q.contains)))
    && (q.since == ZERO_TIME || e.entry.timestamp >= q.since)
    && (q.until == ZERO_TIME || e.entry.timestamp <= q.until)
  }

  function Matching(lower: Fold, q: Query): StoredEntry -> bool {
    e => Matches(lower, e, q)
  }

  function NewerThan(after: nat): StoredEntry -> bool {
    (e: StoredEntry) => e.id > after
  }

  /** What a structured search finds: the newest matching entries first. */
  function Found(lower: Fold, entries: Log, q: Query): Log {
    if q.tenant == "" then []
    else FirstN(Filter(Reverse(entries), Matching(lower, q)), if q.limit <= 0 then 100 else q.limit)
  }

  /** The oldest entries newer than a checkpoint. */
  function Newer(entries: Log, after: nat, limit: int): Log {
    FirstN(Filter(entries, NewerThan(after)), if limit <= 0 then 500 else limit)
  }

  function Lookup(entries: Log, tenant: string, id: nat): Option<StoredEntry> {
    if id == 0 || id > |entries| then None
    else
      var e := entries[id - 1];
      if e.entry.tenant != tenant then None else Some(e)
  }

  /** Every tenant in the log is `tenant` or has a name apart from it. */
  predicate AllApart(log: Log, tenant: string) {
    forall i :: 0 <= i < |log| ==> NamesApart(tenant, log[i].entry.tenant)
  }

  class MemStore {
    var entries: Log
    var nextId: nat
    var written: nat

    ghost predicate Valid()
      reads this
    {
      Numbered(entries) && nextId == written == |entries|
    }

    constructor ()
      ensures Valid() && entries == []
    {
      entries, nextId, written := [], 0, 0;
    }

    method WriteBatch(batch: seq<LogEntry>)
      requires Valid()
      modifies this
      ensures Valid() && entries == Persist(old(entries), batch)
    {
      for i := 0 to |batch|
        invariant Valid() && entries == Persist(old(entries), batch[..i])
      {
        assert batch[..i + 1][..i] == batch[..i];
        var e := batch[i];
        if e.redacted {
          nextId := nextId + 1;
          entries := entries + [StoredEntry(nextId, e)];
          written := written + 1;
        }
      }
      assert batch[..|batch|] == batch;
    }

    method Search(lower: Fold, q: Query) returns (out: Log)
      ensures out == Found(lower, entries, q)
    {
      FoundIs(lower, entries, q);
      hide *;
      if q.tenant == "" {
        return [];
      }
      var limit := q.limit;
      if limit <= 0 {
        limit := 100;
      }
      var log := entries;
      ghost var keep := Matching(lower, q);
      ghost var all := Filter(Reverse(log), keep);
      out := [];
      var i := |log| - 1;
      assert log[..|log|] == log && [] + all == all;
      while i >= 0 && |out| < limit
        invariant -1 <= i < |log| && |out| <= limit
        invariant out + Filter(Reverse(log[..i + 1]), keep) == all
      {
        FoundSoFar(log, i, keep, out);
        if Matches(lower, log[i], q) {
          out := out + [log[i]];
        }
        i := i - 1;
      }
      if i < 0 {
        NothingLeft(log, keep);
      }
      EnoughFound(out, Filter(Reverse(log[..i + 1]), keep), limit);
    }

    /** The start is found by binary search, which relies on the ascending IDs. */
    method Since(after: nat, limit: int) returns (out: Log)
      requires Valid()
      ensures out == Newer(entries, after, limit)
    {
      var max := limit;
      if max <= 0 {
        max := 500;
      }
      hide Filter;
      var log := entries;
      var start := FirstNewer(log, after);
      NewerIsSuffix(log, after);
      out := [];
      var i := start;
      while i < |log| && |out| < max
        invariant start <= i <= |log| && |out| == i - start <= max
        invariant out == log[start..i]
      {
        out := out + [log[i]];
        i := i + 1;
      }
      assert out == FirstN(log[start..], max);
    }

    method Get(tenant: string, id: nat) returns (e: Option<StoredEntry>)
      ensures e == Lookup(entries, tenant, id)
    {
      if id == 0 || id > |entries| {
        return None;
      }
      var found := entries[id - 1];
      if found.entry.tenant != tenant {
        return None;
      }
      return Some(found);
    }
  }

  /** `sort.Search` for the first entry behind the checkpoint. */
  method FirstNewer(log: Log, after: nat) returns (start: nat)
    requires Numbered(log)
    ensures start == if after <= |log| then after else |log|
  {
    var high := |log|;
    start := 0;
    while start < high
      invariant 0 <= start <= high <= |log|
      invariant start > 0 ==> log[start - 1].id <= after
      invariant high < |log| ==> log[high].id > after
    {
      var mid := (start + high) / 2;
      if log[mid].id > after {
        high := mid;
      } else {
        start := mid + 1;
      }
    }
  }

  lemma FilterReversed<T>(s: seq<T>, n: nat, keep: T -> bool)
    requires n < |s|
    ensures Filter(Reverse(s[..n + 1]), keep)
         == (if keep(s[n]) then [s[n]] else []) + Filter(Reverse(s[..n]), keep)
  {
    assert s[..n + 1][..n] == s[..n];
    FilterConcat([s[n]], Reverse(s[..n]), keep);
    assert [s[n]][..0] == [];
    assert Filter([s[n]], keep) == if keep(s[n]) then [s[n]] else [];
  }

  lemma FoundIs(lower: Fold, entries: Log, q: Query)
    ensures Found(lower, entries, q)
         == if q.tenant == "" then []
            else FirstN(Filter(Reverse(entries), Matching(lower, q)), if q.limit <= 0 then 100 else q.limit)
    ensures forall e :: Matching(lower, q)(e) == Matches(lower, e, q)
  {
  }

  /** Going back over one more entry. */
  lemma FoundSoFar<T>(s: seq<T>, n: nat, keep: T -> bool, out: seq<T>)
    requires n < |s|
    ensures out + Filter(Reverse(s[..n + 1]), keep)
         == (if keep(s[n]) then out + [s[n]] else out) + Filter(Reverse(s[..n]), keep)
  {
    FilterReversed(s, n, keep);
  }

  lemma NothingLeft<T>(s: seq<T>, keep: T -> bool)
    ensures Filter(Reverse(s[..0]), keep) == []
  {
    assert s[..0] == [];
  }

  /** A search ends when nothing is left or the limit is reached. */
  lemma EnoughFound<T>(out: seq<T>, rest: seq<T>, limit: nat)
    requires |out| <= limit && (rest == [] || |out| == limit)
    ensures FirstN(out + rest, limit) == out
  {
    if rest == [] {
      assert out + rest == out;
    } else {
      assert (out + rest)[..limit] == out;
    }
  }

  /** In a numbered log the entries newer than a checkpoint are those behind its position. */
  lemma {:induction false} NewerIsSuffix(entries: Log, after: nat)
    requires Numbered(entries)
    ensures Filter(entries, NewerThan(after)) == if after <= |entries| then entries[after..] else []
  {
    if entries != [] {
      var n := |entries| - 1;
      NewerIsSuffix(entries[..n], after);
      assert entries[n].id == n + 1;
      if after < n {
        assert entries[..n][after..] + [entries[n]] == entries[after..];
      } else if after == n {
        assert entries[..n][after..] == [];
        assert [entries[n]] == entries[after..];
      }
    }
  }

  /** So a batch read at a checkpoint continues the log exactly where the checkpoint stands. */
  lemma NewerContinues(entries: Log, after: nat, limit: int)
    requires Numbered(entries) && after <= |entries|
    ensures Newer(entries, after, limit) <= entries[after..]
    ensures |Newer(entries, after, limit)|
         == var max := if limit <= 0 then 500 else limit;
            if |entries| - after <= max then |entries| - after else max
  {
    NewerIsSuffix(entries, after);
  }

  lemma {:induction false} FilterIn<T>(s: seq<T>, keep: T -> bool, x: T)
    requires x in Filter(s, keep)
    ensures x in s && keep(x)
  {
    FilterElements(s, keep);
  }

  /** Whatever a search finds belongs to the tenant, matches, and is what `Get` returns for its ID. */
  lemma FoundIsOwn(lower: Fold, entries: Log, q: Query, e: StoredEntry)
    requires Numbered(entries) && e in Found(lower, entries, q)
    ensures Matches(lower, e, q) && Lookup(entries, q.tenant, e.id) == Some(e)
  {
    FilterIn(Reverse(entries), Matching(lower, q), e);
    var i :| 0 <= i < |entries| && Reverse(entries)[i] == e;
    assert e == entries[|entries| - 1 - i];
  }

  /** A search misses no matching entry unless the limit is reached, and lists newer entries first. */
  lemma FoundComplete(lower: Fold, entries: Log, q: Query, e: StoredEntry)
    requires q.tenant != "" && e in entries && Matches(lower, e, q)
    ensures e in Found(lower, entries, q) || |Found(lower, entries, q)| == if q.limit <= 0 then 100 else q.limit
  {
    var i :| 0 <= i < |entries| && entries[i] == e;
    assert Reverse(entries)[|entries| - 1 - i] == e;
    FilterElements(Reverse(entries), Matching(lower, q));
  }

  predicate NewestFirst(s: Log) {
    forall i, j :: 0 <= i < j < |s| ==> s[i].id > s[j].id
  }

  lemma {:induction false} FilterDescends(s: Log, keep: StoredEntry -> bool)
    requires NewestFirst(s)
    ensures NewestFirst(Filter(s, keep))
  {
    if s != [] {
      var n := |s| - 1;
      FilterDescends(s[..n], keep);
      FilterElements(s[..n], keep);
      var before := Filter(s[..n], keep);
      forall i | 0 <= i < |before|
        ensures before[i].id > s[n].id
      {
        assert before[i] in s[..n];
      }
    }
  }

  lemma ReverseDescends(entries: Log)
    requires Numbered(entries)
    ensures NewestFirst(Reverse(entries))
  {
  }

  lemma FirstNDescends(s: Log, n: nat, e: StoredEntry)
    requires NewestFirst(s) && e in s && e !in FirstN(s, n)
    ensures forall i :: 0 <= i < |FirstN(s, n)| ==> e.id < FirstN(s, n)[i].id
  {
    var j :| 0 <= j < |s| && s[j] == e;
    InFirstN(s, n, j);
  }

  lemma InFirstN(s: Log, n: nat, j: nat)
    requires j < |s|
    ensures j < n ==> s[j] in FirstN(s, n)
  {
    if j < n < |s| {
      assert s[..n][j] == s[j];
    }
  }

  /** A search lists newer entries first, and what it misses is older than everything it lists. */
  lemma FoundNewestFirst(lower: Fold, entries: Log, q: Query, e: StoredEntry)
    requires Numbered(entries)
    ensures NewestFirst(Found(lower, entries, q))
    ensures q.tenant != "" && e in entries && Matches(lower, e, q) && e !in Found(lower, entries, q) ==>
              forall i :: 0 <= i < |Found(lower, entries, q)| ==> e.id < Found(lower, entries, q)[i].id
  {
    var keep := Matching(lower, q);
    var all := Filter(Reverse(entries), keep);
    ReverseDescends(entries);
    FilterDescends(Reverse(entries), keep);
    ReverseMembers(entries, e);
    FilterElements(Reverse(entries), keep);
    FoundIs(lower, entries, q);
    var limit := if q.limit <= 0 then 100 else q.limit;
    if e in all && e !in FirstN(all, limit) {
      FirstNDescends(all, limit, e);
    }
    FirstNKeepsOrder(all, limit);
    hide *;
    NothingNewest();
  }

  lemma FirstNKeepsOrder(s: Log, n: nat)
    requires NewestFirst(s)
    ensures NewestFirst(FirstN(s, n))
  {
  }

  lemma NothingNewest()
    ensures NewestFirst([])
  {
  }

  /** Short of the limit, a search finds an entry exactly when it is the tenant's and no filter excludes it. */
  lemma FoundIff(lower: Fold, entries: Log, q: Query, e: StoredEntry)
    requires q.tenant != "" && |Found(lower, entries, q)| < if q.limit <= 0 then 100 else q.limit
    ensures e in Found(lower, entries, q) <==>
              && e in entries && e.entry.tenant == q.tenant
              && (q.service != "" ==> e.entry.service == q.service)
              && (q.level != "" ==> e.entry.level == q.level)
              && (q.contains != "" ==> exists i :: OccursAt(lower(e.entry.message), lower(q.contains), i))
              && (q.since != ZERO_TIME ==> q.since <= e.entry.timestamp)
              && (q.until != ZERO_TIME ==> e.entry.timestamp <= q.until)
  {
    FilterElements(Reverse(entries), Matching(lower, q));
    hide Filter;
    ReverseMembers(entries, e);
    hide Reverse;
    assert e in Found(lower, entries, q) <==> e in entries && Matches(lower, e, q);
    OccursIff(lower(e.entry.message), lower(q.contains));
  }

  lemma ReverseMembers(entries: Log, e: StoredEntry)
    ensures e in Reverse(entries) <==> e in entries
  {
    if e in entries {
      var i :| 0 <= i < |entries| && entries[i] == e;
      assert Reverse(entries)[|entries| - 1 - i] == e;
    }
  }

  lemma OccursIff(s: string, g: string)
    ensures Occurs(s, g) <==> exists i :: OccursAt(s, g, i)
  {
  }

  /** Entries once stored stay where they are. */
  lemma LookupStable(entries: Log, grown: Log, tenant: string, id: nat)
    requires entries <= grown && Lookup(entries, tenant, id).Some?
    ensures Lookup(grown, tenant, id) == Lookup(entries, tenant, id)
  {
    assert grown[id - 1] == entries[id - 1];
  }
}
