/**
  The checkpointed, deduplicating consumer that keeps the vector index up to date with
  the log. The worker's metrics hooks are left out.
  */
module EmbedWorker {
  import opened Embedding
  import opened Filters
  import opened KnowledgeBase
  import opened LogStore
  import opened Model
  import opened Text
  import opened VectorIndex

  const LOG_TYPE := "log"

  /** What the worker needs to turn an entry into an item. */
  datatype Env = Env(digest: Digest, model: VecModel)

  function HashOf(env: Env, e: StoredEntry): string {
    ContentHash(env.digest, e.entry)
  }

  function ItemOf(env: Env, e: StoredEntry): Item {
    Item(e.entry.tenant, LogRef(e.id), LOG_TYPE, env.model.embed(e.entry.message), env.model.version)
  }

  function Hashes(env: Env, log: Log): set<string> {
    if log == [] then {} else Hashes(env, log[..|log| - 1]) + {HashOf(env, log[|log| - 1])}
  }

  /** A tenant's entries in order, leaving out every entry whose content hash came before in the whole log. */
  function LogItems(env: Env, tenant: string, log: Log): seq<Item> {
    if log == [] then []
    else
      var n := |log| - 1;
      var rest := LogItems(env, tenant, log[..n]);
      if log[n].entry.tenant == tenant && HashOf(env, log[n]) !in Hashes(env, log[..n])
      then rest + [ItemOf(env, log[n])]
      else rest
  }

  function IsLogItem(it: Item): bool {
    it.sourceType == LOG_TYPE
  }

  function LogPart(ix: Index, tenant: string): seq<Item> {
    Filter(Partition(ix, tenant), IsLogItem)
  }

  /** Every item that does not come from the log carries a document's reference. */
  predicate OthersAreDocs(ix: Index) {
    forall t, i :: t in ix.items && 0 <= i < |ix.items[t]| && !IsLogItem(ix.items[t][i]) ==>
      KB_PREFIX <= ix.items[t][i].ref
  }

  /** The index is what the first `n` entries of the log make of it. */
  ghost predicate Indexed(env: Env, log: Log, n: nat, ix: Index)
    requires n <= |log|
  {
    && Coherent(ix)
    && OthersAreDocs(ix)
    && forall t :: t != "" ==> LogPart(ix, t) == LogItems(env, t, log[..n])
  }

  class Worker {
    const env: Env
    const store: MemStore
    const vec: MemVectorStore
    const batch: int
    var lastId: nat
    var seen: set<string>
    var dlq: seq<(StoredEntry, string)>

    /** The index and the hashes seen are what the log up to the checkpoint makes of them. */
    ghost predicate Valid()
      reads this, store, vec
    {
      && batch > 0 && dlq == []
      && store.Valid()
      && lastId <= |store.entries|
      && seen == Hashes(env, store.entries[..lastId])
      && Indexed(env, store.entries, lastId, vec.View())
    }

    constructor (store: MemStore, env: Env, vec: MemVectorStore, batch: int)
      requires store.Valid() && vec.View() == EMPTY
      ensures Valid() && lastId == 0
      ensures this.store == store && this.env == env && this.vec == vec
      ensures this.batch == if batch <= 0 then 200 else batch
    {
      this.store, this.env, this.vec := store, env, vec;
      this.batch := if batch <= 0 then 200 else batch;
      lastId, seen, dlq := 0, {}, [];
      new;
      EmptyIndexed(env, store.entries);
    }

    /** Never fails. */
    method Process(e: StoredEntry) returns (err: Option<string>)
      modifies this`seen, vec
      ensures err == None
      ensures seen == old(seen) + {HashOf(env, e)}
      ensures vec.View() == if HashOf(env, e) in old(seen) then old(vec.View())
                            else Upserted(old(vec.View()), ItemOf(env, e))
    {
      var h := ContentHash(env.digest, e.entry);
      if h in seen {
        return None;
      }
      seen := seen + {h};
      vec.Upsert(Item(e.entry.tenant, LogRef(e.id), LOG_TYPE, env.model.embed(e.entry.message), env.model.version));
      return None;
    }

    /** One pass: processes up to `batch` entries behind the checkpoint and moves it past them. */
    method Tick()
      requires Valid()
      modifies this, vec
      ensures Valid()
      ensures lastId == TickTo(|store.entries|, old(lastId), batch)
    {
      hide Indexed;
      hide Hashes;
      hide Upserted;
      hide Newer;
      var from := lastId;
      var entries := store.Since(from, batch);
      NewerContinues(store.entries, from, batch);
      if |entries| == 0 {
        return;
      }
      ghost var log := store.entries;
      for i := 0 to |entries|
        invariant from + |entries| <= |log| && store.entries == log && lastId == from && dlq == []
        invariant seen == Hashes(env, log[..from + i])
        invariant Indexed(env, log, from + i, vec.View())
      {
        assert entries[i] == log[from..][i] == log[from + i];
        ProcessIndexed(env, log, from + i, vec.View());
        var err := Process(entries[i]);
        if err.Some? {
          // the dead-letter queue would get the entry here
          assert false;
        }
      }
      var last := entries[|entries| - 1].id;
      assert entries[|entries| - 1] == log[from..][|entries| - 1];
      if last > lastId {
        lastId := last;
      }
    }

    /** How many entries are not processed yet, up to a million. */
    method Lag() returns (lag: nat)
      requires Valid()
      ensures lag == Least(1_000_000, |store.entries| - lastId)
    {
      var pending := store.Since(lastId, 1_000_000);
      NewerContinues(store.entries, lastId, 1_000_000);
      lag := |pending|;
    }
  }

  function Least(a: int, b: int): int {
    if a <= b then a else b
  }

  /** Where a pass leaves the checkpoint of a log of `n` entries. */
  function TickTo(n: nat, lastId: nat, batch: int): nat
    requires batch > 0 && lastId <= n
  {
    Least(n, lastId + batch)
  }

  function Ticks(n: nat, batch: int, k: nat): (lastId: nat)
    requires batch > 0
    ensures lastId <= n
  {
    if k == 0 then 0 else TickTo(n, Ticks(n, batch, k - 1), batch)
  }

  /** After `k` passes over a log that does not grow, the checkpoint is min(n, k * batch). */
  lemma {:induction false} QuietTicks(n: nat, batch: int, k: nat)
    requires batch > 0
    ensures Ticks(n, batch, k) == Least(n, k * batch)
  {
    if k > 0 {
      QuietTicks(n, batch, k - 1);
      assert k * batch == (k - 1) * batch + batch;
    }
  }

  // ----- what one more entry does to the index -----

  lemma EmptyIndexed(env: Env, log: Log)
    ensures Indexed(env, log, 0, EMPTY) && Hashes(env, log[..0]) == {}
  {
  }

  /** The hashes of a prefix, one entry longer. */
  lemma HashesNext(env: Env, log: Log, n: nat)
    requires n < |log|
    ensures Hashes(env, log[..n + 1]) == Hashes(env, log[..n]) + {HashOf(env, log[n])}
  {
    assert log[..n + 1][..n] == log[..n];
  }

  lemma LogItemsNext(env: Env, t: string, log: Log, n: nat)
    requires n < |log|
    ensures LogItems(env, t, log[..n + 1])
         == if log[n].entry.tenant == t && HashOf(env, log[n]) !in Hashes(env, log[..n])
            then LogItems(env, t, log[..n]) + [ItemOf(env, log[n])] else LogItems(env, t, log[..n])
  {
    assert log[..n + 1][..n] == log[..n];
  }

  /** The references of a tenant's items are those of its processed entries. */
  lemma {:induction false} LogItemRefs(env: Env, t: string, log: Log, n: nat, it: Item)
    requires Numbered(log) && n <= |log| && it in LogItems(env, t, log[..n])
    ensures exists i :: 0 <= i < n && it == ItemOf(env, log[i]) && log[i].entry.tenant == t
  {
    if n > 0 {
      LogItemsNext(env, t, log, n - 1);
      if it in LogItems(env, t, log[..n - 1]) {
        LogItemRefs(env, t, log, n - 1, it);
      }
    }
  }

  /** The key of the next entry is free: no log item and no document has its reference. */
  lemma NextKeyFree(env: Env, log: Log, n: nat, ix: Index)
    requires Numbered(log) && n < |log| && Indexed(env, log, n, ix)
    requires log[n].entry.tenant != ""
    ensures Key(log[n].entry.tenant, LogRef(n + 1)) !in ix.byRef
  {
    var t := log[n].entry.tenant;
    LogRefNulFree(n + 1);
    KeyTaken(ix, t, LogRef(n + 1));
    var part := Partition(ix, t);
    forall i | 0 <= i < |part|
      ensures part[i].ref != LogRef(n + 1)
    {
      if IsLogItem(part[i]) {
        FilterElements(part, IsLogItem);
        assert part[i] in LogPart(ix, t);
        LogItemRefs(env, t, log, n, part[i]);
        var j :| 0 <= j < n && part[i] == ItemOf(env, log[j]);
        if part[i].ref == LogRef(n + 1) {
          LogRefInjective(j + 1, n + 1);
        }
      } else {
        assert part[i].ref[0] == 'k' && LogRef(n + 1)[0] == 'l';
      }
    }
  }

  /** An item appended to one partition. */
  lemma UpsertLogPart(ix: Index, it: Item, t: string)
    requires it.tenant != "" && it.ref != "" && Key(it.tenant, it.ref) !in ix.byRef
    ensures LogPart(Upserted(ix, it), t)
         == if it.tenant == t && IsLogItem(it) then LogPart(ix, t) + [it] else LogPart(ix, t)
  {
    var part := Partition(ix, t);
    if it.tenant == t {
      assert (part + [it])[..|part|] == part;
    }
  }

  /** Indexing the next entry, when its hash is new, takes the index one entry further. */
  lemma UpsertIndexed(env: Env, log: Log, n: nat, ix: Index)
    requires Numbered(log) && n < |log| && Indexed(env, log, n, ix)
    requires HashOf(env, log[n]) !in Hashes(env, log[..n])
    ensures Indexed(env, log, n + 1, Upserted(ix, ItemOf(env, log[n])))
  {
    var it := ItemOf(env, log[n]);
    var after := Upserted(ix, it);
    LogRefNulFree(n + 1);
    UpsertCoherent(ix, it);
    if it.tenant != "" {
      NextKeyFree(env, log, n, ix);
      assert OthersAreDocs(after);
    }
    forall t | t != ""
      ensures LogPart(after, t) == LogItems(env, t, log[..n + 1])
    {
      LogItemsNext(env, t, log, n);
      if it.tenant != "" {
        UpsertLogPart(ix, it, t);
      }
    }
  }

  /** An entry whose hash is known leaves the index right as it is. */
  lemma DuplicateIndexed(env: Env, log: Log, n: nat, ix: Index)
    requires n < |log| && Indexed(env, log, n, ix)
    requires HashOf(env, log[n]) in Hashes(env, log[..n])
    ensures Indexed(env, log, n + 1, ix)
  {
    forall t
      ensures LogItems(env, t, log[..n + 1]) == LogItems(env, t, log[..n])
    {
      LogItemsNext(env, t, log, n);
    }
  }

  lemma ProcessIndexed(env: Env, log: Log, n: nat, ix: Index)
    requires Numbered(log) && n < |log| && Indexed(env, log, n, ix)
    ensures Hashes(env, log[..n + 1]) == Hashes(env, log[..n]) + {HashOf(env, log[n])}
    ensures Indexed(env, log, n + 1,
                    if HashOf(env, log[n]) in Hashes(env, log[..n]) then ix else Upserted(ix, ItemOf(env, log[n])))
  {
    HashesNext(env, log, n);
    if HashOf(env, log[n]) in Hashes(env, log[..n]) {
      DuplicateIndexed(env, log, n, ix);
    } else {
      UpsertIndexed(env, log, n, ix);
    }
  }

  /** Indexing a document leaves the log's part of the index as it was. */
  lemma DocIndexed(env: Env, log: Log, n: nat, ix: Index, d: Doc)
    requires n <= |log| && Indexed(env, log, n, ix)
    ensures Indexed(env, log, n, Upserted(ix, DocItem(env.model, d)))
  {
    var it := DocItem(env.model, d);
    var after := Upserted(ix, it);
    KbRefNulFree(d);
    UpsertCoherent(ix, it);
    if after != ix {
      assert OthersAreDocs(after);
      forall t
        ensures LogPart(after, t) == LogPart(ix, t)
      {
        assert KindName(Runbook)[0] != LOG_TYPE[0] && KindName(Postmortem)[0] != LOG_TYPE[0];
        UpsertLogPart(ix, it, t);
      }
    }
  }

  /** The log only ever grows, so what is indexed stays right. */
  lemma GrownIndexed(env: Env, log: Log, grown: Log, n: nat, ix: Index)
    requires n <= |log| && log <= grown && Indexed(env, log, n, ix)
    ensures Indexed(env, grown, n, ix) && grown[..n] == log[..n]
  {
    assert grown[..n] == log[..n];
  }

  // ----- which entries are indexed -----

  lemma {:induction false} HashesMembers(env: Env, log: Log, h: string)
    ensures h in Hashes(env, log) <==> exists i :: 0 <= i < |log| && HashOf(env, log[i]) == h
  {
    if log != [] {
      var n := |log| - 1;
      HashesMembers(env, log[..n], h);
      if exists i :: 0 <= i < |log| && HashOf(env, log[i]) == h {
        var i :| 0 <= i < |log| && HashOf(env, log[i]) == h;
        assert i < n ==> HashOf(env, log[..n][i]) == h;
      }
    }
  }

  /** Entry `i` is the tenant's, and no entry before it has its content hash. */
  predicate FirstOfItsKind(env: Env, t: string, log: Log, i: nat)
    requires i < |log|
  {
    log[i].entry.tenant == t && forall j :: 0 <= j < i ==> HashOf(env, log[j]) != HashOf(env, log[i])
  }

  /** The positions of those entries, in order. */
  function FirstPositions(env: Env, t: string, log: Log): (p: seq<nat>)
    ensures forall k :: 0 <= k < |p| ==> p[k] < |log| && FirstOfItsKind(env, t, log, p[k])
    ensures forall k, l :: 0 <= k < l < |p| ==> p[k] < p[l]
  {
    if log == [] then []
    else
      var n := |log| - 1;
      var rest := FirstPositions(env, t, log[..n]);
      assert forall k :: 0 <= k < |rest| ==> FirstOfItsKind(env, t, log[..n], rest[k]);
      if FirstOfItsKind(env, t, log, n) then rest + [n] else rest
  }

  /** A tenant's log items are exactly its entries of a kind not seen before, in log order. */
  lemma {:induction false} LogItemsAreFirsts(env: Env, t: string, log: Log)
    ensures |LogItems(env, t, log)| == |FirstPositions(env, t, log)|
    ensures forall k :: 0 <= k < |LogItems(env, t, log)| ==>
              LogItems(env, t, log)[k] == ItemOf(env, log[FirstPositions(env, t, log)[k]])
    ensures forall i :: 0 <= i < |log| && FirstOfItsKind(env, t, log, i) ==> i in FirstPositions(env, t, log)
  {
    if log != [] {
      var n := |log| - 1;
      LogItemsAreFirsts(env, t, log[..n]);
      HashesMembers(env, log[..n], HashOf(env, log[n]));
      assert forall j :: 0 <= j < n ==> log[..n][j] == log[j];
      forall i | 0 <= i < n && FirstOfItsKind(env, t, log, i)
        ensures FirstOfItsKind(env, t, log[..n], i)
      {
      }
    }
  }
}
