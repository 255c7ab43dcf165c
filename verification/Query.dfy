/**
  The query layer: structured and semantic search and the grounded "why did it fail"
  answer, all scoped to one tenant and audited. Capability checks are inputs.
  */
module Query {
  import opened EmbedWorker
  import opened Embedding
  import opened Filters
  import opened KnowledgeBase
  import opened LogStore
  import opened Model
  import opened Pipeline
  import opened Text
  import opened VectorIndex
  import Audit

  const ELLIPSIS := "\U{E2}\U{80}\U{A6}"

  const DASH := " \U{E2}\U{80}\U{94} "

  /** Cut to `n` bytes. */
  function Truncate(s: string, n: nat): string {
    if |s| <= n then s else s[..n] + ELLIPSIS
  }

  /** The text behind a reference within a tenant; empty when there is none. */
  ghost function Snippet(log: Log, docs: map<nat, Doc>, tenant: string, ref: string): string {
    if LOG_PREFIX <= ref then
      match ParseUint(ref[|LOG_PREFIX|..])
      case None => ""
      case Some(id) =>
        (match Lookup(log, tenant, id)
         case None => ""
         case Some(e) => e.entry.message)
    else if KB_PREFIX <= ref then
      match DocByRef(docs, tenant, ref)
      case None => ""
      case Some(d) => d.title + DASH + Truncate(d.content, 240)
    else ""
  }

  datatype SemanticHit = SemanticHit(ref: string, sourceType: string, score: real, snippet: string)

  ghost function ResolvedHit(log: Log, docs: map<nat, Doc>, tenant: string, h: Hit): SemanticHit {
    SemanticHit(h.item.ref, h.item.sourceType, h.score, Snippet(log, docs, tenant, h.item.ref))
  }

  /** The hits with their snippets; hits without one are dropped. */
  ghost function Resolved(log: Log, docs: map<nat, Doc>, tenant: string, hits: seq<Hit>): seq<SemanticHit> {
    if hits == [] then []
    else
      var rest := Resolved(log, docs, tenant, hits[..|hits| - 1]);
      var r := ResolvedHit(log, docs, tenant, hits[|hits| - 1]);
      if r.snippet == "" then rest else rest + [r]
  }

  function AtLeast(minScore: real): SemanticHit -> bool {
    (h: SemanticHit) => h.score >= minScore
  }

  function Refs(hits: seq<SemanticHit>): (r: seq<string>)
    ensures |r| == |hits| && forall i :: 0 <= i < |hits| ==> r[i] == hits[i].ref
  {
    seq(|hits|, i requires 0 <= i < |hits| => hits[i].ref)
  }

  datatype Answer = Answer(refused: bool, citations: seq<string>)

  /** The answer to what a semantic search returned. */
  function Grounded(hits: seq<SemanticHit>, minScore: real): Answer {
    var relevant := Filter(hits, AtLeast(minScore));
    Answer(relevant == [], Refs(relevant))
  }

  datatype Identity = Identity(actor: string, tenant: string)

  /** What an audit record says. */
  predicate Says(r: Audit.Record, id: Identity, action: string, resource: string, now: int) {
    (r.tenant, r.actor, r.action, r.resource, r.at) == (id.tenant, id.actor, action, resource, now)
  }

  class Service {
    const store: MemStore
    const vec: MemVectorStore
    const kb: KnowledgeBase.Store
    const audit: Audit.Log
    const model: VecModel
    const rank: Ranker
    const lower: Fold
    const minScore: real

    ghost predicate Valid()
      reads kb, audit
    {
      kb.Valid() && audit.Valid() && ValidRanker(rank)
    }

    constructor (store: MemStore, vec: MemVectorStore, kb: KnowledgeBase.Store, audit: Audit.Log,
                 model: VecModel, rank: Ranker, lower: Fold, minScore: real)
      requires kb.Valid() && audit.Valid() && ValidRanker(rank)
      ensures Valid() && this.store == store && this.vec == vec && this.kb == kb && this.audit == audit
      ensures this.model == model && this.rank == rank && this.lower == lower && this.minScore == minScore
    {
      this.store, this.vec, this.kb, this.audit := store, vec, kb, audit;
      this.model, this.rank, this.lower, this.minScore := model, rank, lower, minScore;
    }

    /** The audit log has grown by one record for this identity. */
    twostate predicate Recorded(id: Identity, action: string, resource: string, now: int)
      reads audit
    {
      && |audit.records| == old(|audit.records|) + 1
      && audit.records[..old(|audit.records|)] == old(audit.records)
      && Says(audit.records[old(|audit.records|)], id, action, resource, now)
    }

    /** `None` is the refusal for lack of a capability. The tenant of the query is ignored. */
    method StructuredSearch(may: bool, id: Identity, query: LogStore.Query, now: int) returns (r: Option<Log>)
      requires Valid()
      modifies audit
      ensures Valid()
      ensures may ==> r == Some(Found(lower, store.entries, query.(tenant := id.tenant)))
      ensures may ==> Recorded(id, "search", "structured:" + query.service, now)
      ensures !may ==> r == None && audit.records == old(audit.records)
    {
      if !may {
        return None;
      }
      var q := query.(tenant := id.tenant);
      var _ := audit.Append(id.tenant, id.actor, "search", "structured:" + q.service, now);
      var found := store.Search(lower, q);
      return Some(found);
    }

    method SemanticSearch(may: bool, id: Identity, text: string, k: int, now: int)
      returns (r: Option<seq<SemanticHit>>)
      requires Valid()
      modifies audit
      ensures Valid()
      ensures may ==> r == Some(Resolved(store.entries, kb.docs, id.tenant,
                                         SearchResult(rank, vec.View(), id.tenant, model.embed(text), k)))
      ensures may ==> Recorded(id, "search", "semantic:" + Truncate(text, 64), now)
      ensures !may ==> r == None && audit.records == old(audit.records)
    {
      if !may {
        return None;
      }
      hide Resolved;
      hide SearchResult;
      var _ := audit.Append(id.tenant, id.actor, "search", "semantic:" + Truncate(text, 64), now);
      var qv := model.embed(text);
      var hits := vec.Search(rank, id.tenant, qv, k);
      var out := ResolveAll(id.tenant, hits);
      return Some(out);
    }

    /** A hit whose reference does not resolve within the tenant is dropped. */
    method ResolveAll(tenant: string, hits: seq<Hit>) returns (out: seq<SemanticHit>)
      requires kb.Valid()
      ensures out == Resolved(store.entries, kb.docs, tenant, hits)
    {
      hide Snippet;
      out := [];
      for i := 0 to |hits|
        invariant out == Resolved(store.entries, kb.docs, tenant, hits[..i])
      {
        assert hits[..i + 1][..i] == hits[..i];
        var h := hits[i];
        var snip := ResolveSnippet(tenant, h.item.ref);
        if snip == "" {
          continue;
        }
        out := out + [SemanticHit(h.item.ref, h.item.sourceType, h.score, snip)];
      }
      assert hits[..|hits|] == hits;
    }

    method ResolveSnippet(tenant: string, ref: string) returns (s: string)
      requires kb.Valid()
      ensures s == Snippet(store.entries, kb.docs, tenant, ref)
    {
      if LOG_PREFIX <= ref {
        var id := ParseUint(ref[|LOG_PREFIX|..]);
        if id == None {
          return "";
        }
        var e := store.Get(tenant, id.value);
        if e == None {
          return "";
        }
        return e.value.entry.message;
      } else if KB_PREFIX <= ref {
        var d := kb.GetByRef(tenant, ref);
        if d == None {
          return "";
        }
        return d.value.title + DASH + Truncate(d.value.content, 240);
      }
      return "";
    }

    /** Keeps the sufficiently relevant hits, in place, and cites them; without any it refuses. */
    method WhyDidFail(mayAsk: bool, maySearch: bool, id: Identity, question: string, k: int, now: int, later: int)
      returns (r: Option<Answer>)
      requires Valid()
      modifies audit
      ensures Valid()
      ensures r.Some? <==> mayAsk && maySearch
      ensures r.Some? ==>
                var hits := SearchResult(rank, vec.View(), id.tenant, model.embed(question), k);
                r.value == Grounded(Resolved(store.entries, kb.docs, id.tenant, hits), minScore)
      ensures var n := old(|audit.records|);
              && |audit.records| == n + (if !mayAsk then 0 else if !maySearch then 1 else 2)
              && audit.records[..n] == old(audit.records)
              && (mayAsk ==> Says(audit.records[n], id, "rag_query", Truncate(question, 128), now))
              && (mayAsk && maySearch ==>
                    Says(audit.records[n + 1], id, "search", "semantic:" + Truncate(question, 64), later))
    {
      if !mayAsk {
        return None;
      }
      hide Grounded;
      hide Resolved;
      hide SearchResult;
      var _ := audit.Append(id.tenant, id.actor, "rag_query", Truncate(question, 128), now);
      var found := SemanticSearch(maySearch, id, question, k, later);
      if found == None {
        return None;
      }
      var a := Ground(found.value);
      return Some(a);
    }

    method Ground(all: seq<SemanticHit>) returns (a: Answer)
      ensures a == Grounded(all, minScore)
    {
      hide Filter;
      var hits := new SemanticHit[|all|](i requires 0 <= i < |all| => all[i]);
      assert hits[..] == all;
      var n := FilterInPlace(hits, AtLeast(minScore));
      var relevant := hits[..n];
      if n == 0 {
        return Answer(true, []);
      }
      var citations: seq<string> := [];
      for i := 0 to n
        invariant citations == Refs(relevant)[..i]
      {
        citations := citations + [relevant[i].ref];
      }
      return Answer(false, citations);
    }
  }

  // ----- every reference resolves -----

  lemma LogRefResolves(log: Log, docs: map<nat, Doc>, tenant: string, i: nat)
    requires i < |log| < UINT64_LIMIT && log[i].id == i + 1 && log[i].entry.tenant == tenant
    ensures Snippet(log, docs, tenant, LogRef(i + 1)) == log[i].entry.message
  {
    assert LogRef(i + 1)[|LOG_PREFIX|..] == Dec(i + 1);
    ParseDec(i + 1);
  }

  lemma LogItemResolves(c: Config, s: State, tenant: string, it: Item)
    requires Inv(c, s) && |s.log| < UINT64_LIMIT && tenant != "" && it in LogPart(s.ix, tenant)
    ensures Snippet(s.log, s.kb.docs, tenant, it.ref) != ""
  {
    hide Inv;
    hide Snippet;
    hide LogItems;
    hide LogPart;
    hide Numbered;
    PartDetermined(c, s, tenant);
    LogItemRefs(c.env, tenant, s.log, Processed(s.worker), it);
    var j :| 0 <= j < |s.log| && it == ItemOf(c.env, s.log[j]) && s.log[j].entry.tenant == tenant;
    StoredSound(c, s, j);
    assert ItemOf(c.env, s.log[j]).ref == LogRef(s.log[j].id);
    LogRefResolves(s.log, s.kb.docs, tenant, j);
  }

  lemma StoredSound(c: Config, s: State, j: nat)
    requires Inv(c, s) && j < |s.log|
    ensures s.log[j].id == j + 1 && s.log[j].entry.message != ""
  {
    assert s.front.accepted[j] == Contents(s.log)[j] == s.log[j].entry;
  }

  lemma PartDetermined(c: Config, s: State, tenant: string)
    requires Inv(c, s) && tenant != ""
    ensures Processed(s.worker) <= |s.log| && Numbered(s.log)
    ensures LogPart(s.ix, tenant) == LogItems(c.env, tenant, s.log[..Processed(s.worker)])
  {
  }

  lemma DocResolves(log: Log, docs: map<nat, Doc>, tenant: string, ref: string)
    requires HasDoc(docs, tenant, ref) && KB_PREFIX <= ref
    ensures Snippet(log, docs, tenant, ref) != ""
  {
    assert ref[0] == 'k' && LOG_PREFIX[0] == 'l';
  }

  /** An item of the index stands for a text of its tenant. */
  lemma ItemResolves(c: Config, s: State, tenant: string, i: nat)
    requires Inv(c, s) && |s.log| < UINT64_LIMIT
    requires i < |Partition(s.ix, tenant)|
    ensures Snippet(s.log, s.kb.docs, tenant, Partition(s.ix, tenant)[i].ref) != ""
  {
    hide Snippet;
    var it := Partition(s.ix, tenant)[i];
    NamedTenants(s.ix);
    if IsLogItem(it) {
      FilterElements(Partition(s.ix, tenant), IsLogItem);
      LogItemResolves(c, s, tenant, it);
    } else {
      DocBehind(c.env.model, s.kb.docs, s.ix, tenant, i);
      DocResolves(s.log, s.kb.docs, tenant, it.ref);
    }
  }

  lemma DocBehind(m: VecModel, docs: map<nat, Doc>, ix: Index, tenant: string, i: nat)
    requires DocsBehind(m, docs, ix) && i < |Partition(ix, tenant)| && !IsLogItem(Partition(ix, tenant)[i])
    ensures HasDoc(docs, tenant, Partition(ix, tenant)[i].ref) && KB_PREFIX <= Partition(ix, tenant)[i].ref
  {
    var it := Partition(ix, tenant)[i];
    assert it == ix.items[tenant][i];
    var id :| id in docs && docs[id].tenant == tenant && it == DocItem(m, docs[id]);
    assert Answers(docs[id], tenant, it.ref);
  }

  lemma NamedTenants(ix: Index)
    requires Coherent(ix)
    ensures "" !in ix.items
  {
    forall t | t in ix.items
      ensures t != ""
    {
      assert Tidy(t, ix.items[t]);
    }
  }

  /** A text once found behind a reference is found there ever after. */
  lemma SnippetStable(c: Config, s: State, later: State, tenant: string, ref: string)
    requires KbInv(s.kb) && KbInv(later.kb) && Extends(s, later)
    requires Snippet(s.log, s.kb.docs, tenant, ref) != ""
    ensures Snippet(later.log, later.kb.docs, tenant, ref) == Snippet(s.log, s.kb.docs, tenant, ref)
  {
    if LOG_PREFIX <= ref {
      LookupStable(s.log, later.log, tenant, ParseUint(ref[|LOG_PREFIX|..]).value);
    } else {
      var id :| id in s.kb.docs && Answers(s.kb.docs[id], tenant, ref);
      OneAnswer(s.kb.docs, tenant, ref, id);
      OneAnswer(later.kb.docs, tenant, ref, id);
    }
  }

  /**
    Whatever a search hits in a reachable state resolves, in that state and after any
    further actions, to the same non-empty text.
    */
  lemma EveryHitResolves(c: Config, before: seq<Action>, after: seq<Action>,
                         rank: Ranker, tenant: string, query: Vec, k: int, i: nat)
    requires c.Valid() && ValidRanker(rank)
    requires |Reach(c, before).log| < UINT64_LIMIT
    requires i < |SearchResult(rank, Reach(c, before).ix, tenant, query, k)|
    ensures var s, later := Reach(c, before), From(c, Reach(c, before), after);
            var ref := SearchResult(rank, s.ix, tenant, query, k)[i].item.ref;
            && Snippet(s.log, s.kb.docs, tenant, ref) != ""
            && Snippet(later.log, later.kb.docs, tenant, ref) == Snippet(s.log, s.kb.docs, tenant, ref)
  {
    var s, later := Reach(c, before), From(c, Reach(c, before), after);
    ReachKeeps(c, before);
    RunKeeps(c, s, after);
    var part := Partition(s.ix, tenant);
    TopHitsOptimal(rank, part, query, k);
    var at := rank(Scores(part, query))[i];
    ItemResolves(c, s, tenant, at);
    SnippetStable(c, s, later, tenant, part[at].ref);
  }

  lemma {:induction false} NoneDropped(log: Log, docs: map<nat, Doc>, tenant: string, hits: seq<Hit>)
    requires forall i :: 0 <= i < |hits| ==> Snippet(log, docs, tenant, hits[i].item.ref) != ""
    ensures |Resolved(log, docs, tenant, hits)| == |hits|
    ensures forall i :: 0 <= i < |hits| ==>
              Resolved(log, docs, tenant, hits)[i] == ResolvedHit(log, docs, tenant, hits[i])
  {
    hide Snippet;
    if hits != [] {
      var n := |hits| - 1;
      assert forall i :: 0 <= i < n ==> hits[..n][i] == hits[i];
      NoneDropped(log, docs, tenant, hits[..n]);
    }
  }

  /** So a semantic search drops no hit. */
  lemma SearchDropsNothing(c: Config, schedule: seq<Action>, rank: Ranker, tenant: string, query: Vec, k: int)
    requires c.Valid() && ValidRanker(rank) && |Reach(c, schedule).log| < UINT64_LIMIT
    ensures var s := Reach(c, schedule);
            var hits := SearchResult(rank, s.ix, tenant, query, k);
            && |Resolved(s.log, s.kb.docs, tenant, hits)| == |hits|
            && forall i :: 0 <= i < |hits| ==>
                 Resolved(s.log, s.kb.docs, tenant, hits)[i] == ResolvedHit(s.log, s.kb.docs, tenant, hits[i])
  {
    var s := Reach(c, schedule);
    var hits := SearchResult(rank, s.ix, tenant, query, k);
    forall i | 0 <= i < |hits|
      ensures Snippet(s.log, s.kb.docs, tenant, hits[i].item.ref) != ""
    {
      EveryHitResolves(c, schedule, [], rank, tenant, query, k, i);
    }
    NoneDropped(s.log, s.kb.docs, tenant, hits);
  }

  // ----- what is shown -----

  /** What a semantic search shows. */
  ghost function Shown(s: State, tenant: string, rank: Ranker, query: Vec, k: int): seq<SemanticHit>
    requires ValidRanker(rank)
  {
    Resolved(s.log, s.kb.docs, tenant, SearchResult(rank, s.ix, tenant, query, k))
  }

  /** What is shown for an item. */
  ghost function ShownItem(s: State, tenant: string, it: Item, query: Vec): SemanticHit {
    SemanticHit(it.ref, it.sourceType, CosineOf(query, it.vec), Snippet(s.log, s.kb.docs, tenant, it.ref))
  }

  /** In a reachable state a search shows the best items, in the order of the ranking. */
  lemma ShownAt(c: Config, schedule: seq<Action>, tenant: string, rank: Ranker, query: Vec, k: int)
    requires c.Valid() && ValidRanker(rank) && |Reach(c, schedule).log| < UINT64_LIMIT && tenant != ""
    ensures var s := Reach(c, schedule);
            var h, part := Shown(s, tenant, rank, query, k), Partition(s.ix, tenant);
            var order := rank(Scores(part, query));
            && |h| == Least(|part|, if k > 0 then k else 5) <= |order|
            && (forall i :: 0 <= i < |h| ==>
                  order[i] < |part| && h[i] == ShownItem(s, tenant, part[order[i]], query))
            && (forall i, j :: 0 <= i < j < |h| ==> h[i].score >= h[j].score)
  {
    SearchDropsNothing(c, schedule, rank, tenant, query, k);
    TopHitsOptimal(rank, Partition(Reach(c, schedule).ix, tenant), query, k);
    hide Reach;
    hide TopHits;
    hide Resolved;
    hide Snippet;
  }

  lemma LogOrDoc(m: VecModel, docs: map<nat, Doc>, ix: Index, tenant: string, i: nat)
    requires DocsBehind(m, docs, ix) && i < |Partition(ix, tenant)|
    ensures IsLogItem(Partition(ix, tenant)[i]) || IsDocItem(m, docs, tenant, Partition(ix, tenant)[i])
  {
    assert Partition(ix, tenant)[i] == ix.items[tenant][i];
  }

  /** The item of a reference to a document. */
  lemma ItemOfDoc(c: Config, s: State, tenant: string, p: nat) returns (doc: Doc)
    requires Inv(c, s) && p < |Partition(s.ix, tenant)| && !IsLogItem(Partition(s.ix, tenant)[p])
    ensures var it := Partition(s.ix, tenant)[p];
            it == DocItem(c.env.model, doc) && DocByRef(s.kb.docs, tenant, it.ref) == Some(doc)
  {
    var docs, it := s.kb.docs, Partition(s.ix, tenant)[p];
    FiledDocs(c, s);
    hide Inv;
    LogOrDoc(c.env.model, docs, s.ix, tenant, p);
    var id :| id in docs && docs[id].tenant == tenant && it == DocItem(c.env.model, docs[id]);
    doc := docs[id];
    OneAnswer(docs, tenant, it.ref, id);
  }

  lemma FiledDocs(c: Config, s: State)
    requires Inv(c, s)
    ensures Filed(s.kb.docs) && DocsBehind(c.env.model, s.kb.docs, s.ix)
  {
  }

  /** The hit of the tenant's entry `id`, scored by its message and showing it. */
  predicate HitOfEntry(s: State, m: VecModel, tenant: string, query: Vec, h: SemanticHit, id: nat) {
    var e := Lookup(s.log, tenant, id);
    && e.Some?
    && h == SemanticHit(LogRef(id), "log", CosineOf(query, m.embed(e.value.entry.message)), e.value.entry.message)
  }

  /** The hit of the tenant's document `d`, scored by title and content and showing the title and 240 bytes. */
  ghost predicate HitOfDoc(s: State, m: VecModel, tenant: string, query: Vec, h: SemanticHit, d: Doc) {
    && DocByRef(s.kb.docs, tenant, KbRef(d)) == Some(d)
    && h == SemanticHit(KbRef(d), KindName(d.kind), CosineOf(query, m.embed(d.title + "\n" + d.content)),
                        d.title + DASH + if |d.content| <= 240 then d.content else d.content[..240] + ELLIPSIS)
  }

  lemma EntryOfItem(c: Config, s: State, tenant: string, p: nat) returns (j: nat)
    requires Inv(c, s) && tenant != ""
    requires p < |Partition(s.ix, tenant)| && IsLogItem(Partition(s.ix, tenant)[p])
    ensures j < |s.log| && s.log[j].id == j + 1 && s.log[j].entry.tenant == tenant
    ensures Partition(s.ix, tenant)[p] == ItemOf(c.env, s.log[j])
  {
    var it := Partition(s.ix, tenant)[p];
    FilterElements(Partition(s.ix, tenant), IsLogItem);
    PartDetermined(c, s, tenant);
    hide Inv;
    hide ItemOf;
    LogItemRefs(c.env, tenant, s.log, Processed(s.worker), it);
    j :| 0 <= j < |s.log| && it == ItemOf(c.env, s.log[j]) && s.log[j].entry.tenant == tenant;
  }

  lemma EntryShown(c: Config, s: State, tenant: string, query: Vec, p: nat) returns (id: nat)
    requires Inv(c, s) && |s.log| < UINT64_LIMIT && tenant != ""
    requires p < |Partition(s.ix, tenant)| && IsLogItem(Partition(s.ix, tenant)[p])
    ensures HitOfEntry(s, c.env.model, tenant, query, ShownItem(s, tenant, Partition(s.ix, tenant)[p], query), id)
  {
    var j := EntryOfItem(c, s, tenant, p);
    hide Inv;
    hide Snippet;
    hide Partition;
    hide IsLogItem;
    LogRefResolves(s.log, s.kb.docs, tenant, j);
    id := j + 1;
  }

  lemma DocShown(c: Config, s: State, tenant: string, query: Vec, p: nat) returns (d: Doc)
    requires Inv(c, s) && p < |Partition(s.ix, tenant)| && !IsLogItem(Partition(s.ix, tenant)[p])
    ensures HitOfDoc(s, c.env.model, tenant, query, ShownItem(s, tenant, Partition(s.ix, tenant)[p], query), d)
  {
    d := ItemOfDoc(c, s, tenant, p);
    hide Inv;
    hide DocByRef;
    hide Partition;
    assert KbRef(d)[0] == 'k' && LOG_PREFIX[0] == 'l' && KB_PREFIX <= KbRef(d);
  }

  /**
    In every reachable state, every hit a search shows is that of one of the tenant's entries or
    documents: scored by its own text, and showing that text.
    */
  lemma HitsDescribed(c: Config, schedule: seq<Action>, rank: Ranker, tenant: string, query: Vec, k: int, i: nat)
    requires c.Valid() && ValidRanker(rank) && |Reach(c, schedule).log| < UINT64_LIMIT && tenant != ""
    requires i < |Shown(Reach(c, schedule), tenant, rank, query, k)|
    ensures var s := Reach(c, schedule);
            var h := Shown(s, tenant, rank, query, k)[i];
            || (exists id :: HitOfEntry(s, c.env.model, tenant, query, h, id))
            || (exists d :: HitOfDoc(s, c.env.model, tenant, query, h, d))
  {
    var s := Reach(c, schedule);
    var part := Partition(s.ix, tenant);
    ReachKeeps(c, schedule);
    ShownAt(c, schedule, tenant, rank, query, k);
    hide *;
    var p := rank(Scores(part, query))[i];
    if IsLogItem(part[p]) {
      var id := EntryShown(c, s, tenant, query, p);
    } else {
      var d := DocShown(c, s, tenant, query, p);
    }
  }

  // ----- grounding -----

  /** Of hits in descending order of score, those above a threshold come first. */
  lemma {:induction false} RelevantIsPrefix(hits: seq<SemanticHit>, minScore: real)
    requires forall i, j :: 0 <= i < j < |hits| ==> hits[i].score >= hits[j].score
    ensures Filter(hits, AtLeast(minScore)) <= hits
    ensures forall i :: 0 <= i < |hits| ==>
              (i < |Filter(hits, AtLeast(minScore))| <==> hits[i].score >= minScore)
  {
    if hits != [] {
      var n := |hits| - 1;
      var before := Filter(hits[..n], AtLeast(minScore));
      RelevantIsPrefix(hits[..n], minScore);
      assert hits == hits[..n] + [hits[n]];
      assert forall i :: 0 <= i < n ==> hits[..n][i] == hits[i];
      if hits[n].score >= minScore {
        assert n > 0 ==> hits[..n][n - 1].score >= minScore;
        assert before == hits[..n];
      }
    }
  }

  /**
    In every reachable state the answer is refused exactly when no item of the tenant's
    partition reaches the threshold. Otherwise it cites the references of those among the
    top k that do, which are the first ones.
    */
  lemma RefusesExactly(c: Config, schedule: seq<Action>, rank: Ranker, tenant: string,
                       query: Vec, k: int, minScore: real)
    requires c.Valid() && ValidRanker(rank) && |Reach(c, schedule).log| < UINT64_LIMIT
    ensures var s := Reach(c, schedule);
            var hits := SearchResult(rank, s.ix, tenant, query, k);
            var a := Grounded(Resolved(s.log, s.kb.docs, tenant, hits), minScore);
            var part := Partition(s.ix, tenant);
            && (a.refused <==> forall i :: 0 <= i < |part| ==> CosineOf(query, part[i].vec) < minScore)
            && (a.refused <==> a.citations == [])
            && |a.citations| <= |hits|
            && forall i :: 0 <= i < |hits| ==>
                 && (i < |a.citations| <==> hits[i].score >= minScore)
                 && (i < |a.citations| ==> a.citations[i] == hits[i].item.ref)
  {
    hide Reach;
    hide Inv;
    hide Resolved;
    hide Snippet;
    hide TopHits;
    hide Grounded;
    hide Coherent;
    var s := Reach(c, schedule);
    var part, hits := Partition(s.ix, tenant), SearchResult(rank, s.ix, tenant, query, k);
    ReachKeeps(c, schedule);
    IndexCoherent(c, s);
    NamedTenants(s.ix);
    SearchDropsNothing(c, schedule, rank, tenant, query, k);
    TopHitsOptimal(rank, part, query, k);
    BestHit(rank, part, query, k, minScore);
    GroundedOf(hits, Resolved(s.log, s.kb.docs, tenant, hits), minScore);
  }

  /** The answer for hits in descending order of score. */
  lemma GroundedOf(hits: seq<Hit>, resolved: seq<SemanticHit>, minScore: real)
    requires |resolved| == |hits|
    requires forall i :: 0 <= i < |hits| ==> resolved[i].score == hits[i].score && resolved[i].ref == hits[i].item.ref
    requires forall i, j :: 0 <= i < j < |hits| ==> hits[i].score >= hits[j].score
    ensures var a := Grounded(resolved, minScore);
            && (a.refused <==> hits == [] || hits[0].score < minScore)
            && (a.refused <==> a.citations == [])
            && |a.citations| <= |hits|
            && forall i :: 0 <= i < |hits| ==>
                 && (i < |a.citations| <==> hits[i].score >= minScore)
                 && (i < |a.citations| ==> a.citations[i] == hits[i].item.ref)
  {
    RelevantIsPrefix(resolved, minScore);
  }

  lemma IndexCoherent(c: Config, s: State)
    requires Inv(c, s)
    ensures Coherent(s.ix)
  {
  }

  /** The first hit is the best item of the partition. */
  lemma BestHit(rank: Ranker, part: seq<Item>, query: Vec, k: int, minScore: real)
    requires ValidRanker(rank)
    ensures var hits := TopHits(rank, part, query, k);
            (hits != [] && hits[0].score >= minScore) <==>
              exists i :: 0 <= i < |part| && CosineOf(query, part[i].vec) >= minScore
  {
    var hits, order := TopHits(rank, part, query, k), rank(Scores(part, query));
    TopHitsOptimal(rank, part, query, k);
    if hits != [] {
      assert hits[0] == Hit(part[order[0]], CosineOf(query, part[order[0]].vec));
      forall j | 0 <= j < |part|
        ensures hits[0].score >= CosineOf(query, part[j].vec)
      {
        if j in order[..|hits|] {
          var p :| 0 <= p < |hits| && order[..|hits|][p] == j;
          assert hits[p].score == CosineOf(query, part[j].vec);
        }
      }
    }
  }
}
