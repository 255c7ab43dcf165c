/**
  The vector index: one partition per tenant, an auxiliary set of keys against
  duplicates, and search within one partition.

  Sorting is the standard library's: a parameter `rank` that lists the positions of a
  sequence of scores in descending order of score, ties in an order of its own that
  depends on the scores alone.
  */
module VectorIndex {
  import opened Embedding
  import opened Filters
  import opened Model
  import opened Permutations
  import opened Sums
  import opened Text

  datatype Item = Item(tenant: string, ref: string, sourceType: string, vec: Vec, version: string)

  datatype Index = Index(items: map<string, seq<Item>>, byRef: set<string>)

  const EMPTY := Index(map[], {})

  function Key(tenant: string, ref: string): string {
    tenant + [NUL] + ref
  }

  function Partition(ix: Index, tenant: string): seq<Item> {
    if tenant in ix.items then ix.items[tenant] else []
  }

  function Upserted(ix: Index, it: Item): Index {
    if it.tenant == "" || it.ref == "" || Key(it.tenant, it.ref) in ix.byRef then ix
    else Index(ix.items[it.tenant := Partition(ix, it.tenant) + [it]], ix.byRef + {Key(it.tenant, it.ref)})
  }

  datatype Hit = Hit(item: Item, score: real)

  type Ranker = seq<real> -> seq<nat>

  /** The positions of all scores, each once, highest score first. */
  predicate IsRanking(order: seq<nat>, scores: seq<real>) {
    && |order| == |scores|
    && (forall i :: 0 <= i < |order| ==> order[i] < |scores|)
    && (forall i, j :: 0 <= i < j < |order| ==> order[i] != order[j] && scores[order[i]] >= scores[order[j]])
  }

  ghost predicate ValidRanker(rank: Ranker) {
    forall scores :: IsRanking(rank(scores), scores)
  }

  function Scores(part: seq<Item>, query: Vec): (s: seq<real>)
    ensures |s| == |part| && forall i :: 0 <= i < |part| ==> s[i] == CosineOf(query, part[i].vec)
  {
    seq(|part|, i requires 0 <= i < |part| => CosineOf(query, part[i].vec))
  }

  function InOrder(part: seq<Item>, scores: seq<real>, order: seq<nat>): (h: seq<Hit>)
    requires |scores| == |part| && IsRanking(order, scores)
    ensures |h| == |part| && forall i :: 0 <= i < |part| ==> h[i] == Hit(part[order[i]], scores[order[i]])
  {
    seq(|part|, i requires 0 <= i < |part| => Hit(part[order[i]], scores[order[i]]))
  }

  function Limit(k: int): nat {
    if k <= 0 then 5 else k
  }

  function Smaller(m: int, n: int): int {
    if m <= n then m else n
  }

  /** What a search of a partition returns. */
  function TopHits(rank: Ranker, part: seq<Item>, query: Vec, k: int): seq<Hit>
    requires ValidRanker(rank)
  {
    FirstN(InOrder(part, Scores(part, query), rank(Scores(part, query))), Limit(k))
  }

  function SearchResult(rank: Ranker, ix: Index, tenant: string, query: Vec, k: int): seq<Hit>
    requires ValidRanker(rank)
  {
    if tenant == "" then [] else TopHits(rank, Partition(ix, tenant), query, k)
  }

  class MemVectorStore {
    var items: map<string, seq<Item>>
    var byRef: set<string>

    function View(): Index
      reads this
    {
      Index(items, byRef)
    }

    constructor ()
      ensures View() == EMPTY
    {
      items, byRef := map[], {};
    }

    method Upsert(it: Item)
      modifies this
      ensures View() == Upserted(old(View()), it)
    {
      if it.tenant == "" || it.ref == "" {
        return;
      }
      var key := it.tenant + [NUL] + it.ref;
      if key in byRef {
        return;
      }
      byRef := byRef + {key};
      items := items[it.tenant := (if it.tenant in items then items[it.tenant] else []) + [it]];
    }

    method Search(rank: Ranker, tenant: string, query: Vec, k: int) returns (hits: seq<Hit>)
      requires ValidRanker(rank)
      ensures hits == SearchResult(rank, View(), tenant, query, k)
    {
      if tenant == "" {
        return [];
      }
      hide CosineOf;
      hide IsRanking;
      var max := if k <= 0 then 5 else k;
      var part := if tenant in items then items[tenant] else [];
      var scores: seq<real> := [];
      for i := 0 to |part|
        invariant scores == Scores(part, query)[..i]
      {
        var score := Cosine(query, part[i].vec);
        scores := scores + [score];
      }
      assert scores == Scores(part, query);
      var order := rank(scores);
      hits := InOrder(part, scores, order);
      if |hits| > max {
        hits := hits[..max];
      }
    }

    /** The number of items, counted partition by partition in any order. */
    method Len() returns (n: nat)
      requires Coherent(View())
      ensures n == |byRef|
    {
      n := 0;
      var parts := items;
      var tenants := parts.Keys;
      ghost var ix := View();
      while tenants != {}
        invariant tenants <= parts.Keys
        invariant n + |KeysOf(ix, tenants)| == |byRef|
      {
        var t :| t in tenants;
        KeysOfWithout(ix, tenants, t);
        tenants := tenants - {t};
        n := n + |parts[t]|;
      }
    }
  }

  // ----- coherence -----

  /** A partition holds items of its tenant only, under usable references, each once. */
  predicate Tidy(tenant: string, part: seq<Item>) {
    && tenant != ""
    && (forall i :: 0 <= i < |part| ==> part[i].tenant == tenant && part[i].ref != "" && Free(part[i].ref, NUL))
    && (forall i, j :: 0 <= i < j < |part| ==> part[i].ref != part[j].ref)
  }

  ghost function PartKeys(tenant: string, part: seq<Item>): set<string> {
    set i | 0 <= i < |part| :: Key(tenant, part[i].ref)
  }

  ghost function KeysOf(ix: Index, tenants: set<string>): set<string>
    requires tenants <= ix.items.Keys
  {
    set t, i | t in tenants && 0 <= i < |ix.items[t]| :: Key(t, ix.items[t][i].ref)
  }

  /** The key set is exactly the keys of the stored items. */
  ghost predicate Coherent(ix: Index) {
    && (forall t :: t in ix.items ==> Tidy(t, ix.items[t]))
    && ix.byRef == KeysOf(ix, ix.items.Keys)
  }

  /** Keys of references without NUL can be taken apart. */
  lemma KeyInjective(t: string, r: string, u: string, s: string)
    requires Free(r, NUL) && Free(s, NUL) && Key(t, r) == Key(u, s)
    ensures t == u && r == s
  {
    SplitLast(t, r, u, s, NUL);
  }

  /** A key is taken exactly when the tenant's partition has an item with that reference. */
  lemma KeyTaken(ix: Index, tenant: string, ref: string)
    requires Coherent(ix) && Free(ref, NUL)
    ensures Key(tenant, ref) in ix.byRef <==>
              exists i :: 0 <= i < |Partition(ix, tenant)| && Partition(ix, tenant)[i].ref == ref
  {
    if Key(tenant, ref) in ix.byRef {
      var t, i :| t in ix.items && 0 <= i < |ix.items[t]| && Key(tenant, ref) == Key(t, ix.items[t][i].ref);
      assert Tidy(t, ix.items[t]);
      KeyInjective(tenant, ref, t, ix.items[t][i].ref);
      assert Partition(ix, tenant)[i].ref == ref;
    }
    if exists i :: 0 <= i < |Partition(ix, tenant)| && Partition(ix, tenant)[i].ref == ref {
      var i :| 0 <= i < |Partition(ix, tenant)| && Partition(ix, tenant)[i].ref == ref;
      assert Key(tenant, ix.items[tenant][i].ref) in KeysOf(ix, ix.items.Keys);
    }
  }

  lemma UpsertCoherent(ix: Index, it: Item)
    requires Coherent(ix) && Free(it.ref, NUL)
    ensures Coherent(Upserted(ix, it))
  {
    var after := Upserted(ix, it);
    if after != ix {
      var t := it.tenant;
      KeyTaken(ix, t, it.ref);
      var part := Partition(ix, t);
      assert t in ix.items ==> Tidy(t, part);
      assert Tidy(t, part + [it]);
      assert after.items[t][|part|] == it;
      forall key
        ensures key in after.byRef <==> key in KeysOf(after, after.items.Keys)
      {
        if key in KeysOf(ix, ix.items.Keys) {
          var u, i :| u in ix.items && 0 <= i < |ix.items[u]| && key == Key(u, ix.items[u][i].ref);
          assert after.items[u][i] == ix.items[u][i];
        }
        if key in KeysOf(after, after.items.Keys) {
          var u, i :| u in after.items && 0 <= i < |after.items[u]| && key == Key(u, after.items[u][i].ref);
          if u != t || i < |part| {
            assert u in ix.items && ix.items[u][i] == after.items[u][i];
          }
        }
      }
    }
  }

  lemma {:induction false} PartKeysCount(tenant: string, part: seq<Item>)
    requires Tidy(tenant, part)
    ensures |PartKeys(tenant, part)| == |part|
  {
    if part == [] {
    } else {
      var n := |part| - 1;
      PartKeysCount(tenant, part[..n]);
      var key := Key(tenant, part[n].ref);
      forall i | 0 <= i < n
        ensures Key(tenant, part[i].ref) != key
      {
        if Key(tenant, part[i].ref) == key {
          KeyInjective(tenant, part[i].ref, tenant, part[n].ref);
        }
      }
      assert PartKeys(tenant, part) == PartKeys(tenant, part[..n]) + {key};
    }
  }

  lemma KeysOfWithout(ix: Index, tenants: set<string>, t: string)
    requires Coherent(ix) && tenants <= ix.items.Keys && t in tenants
    ensures |KeysOf(ix, tenants)| == |KeysOf(ix, tenants - {t})| + |ix.items[t]|
  {
    var part := ix.items[t];
    assert Tidy(t, part);
    PartKeysCount(t, part);
    var others, own := KeysOf(ix, tenants - {t}), PartKeys(t, part);
    forall key | key in others
      ensures key !in own
    {
      var u, i :| u in tenants - {t} && 0 <= i < |ix.items[u]| && key == Key(u, ix.items[u][i].ref);
      assert Tidy(u, ix.items[u]);
      if key in own {
        var j :| 0 <= j < |part| && key == Key(t, part[j].ref);
        KeyInjective(u, ix.items[u][i].ref, t, part[j].ref);
      }
    }
    assert KeysOf(ix, tenants) == others + own;
    assert others !! own;
  }

  // ----- search -----

  ghost function Below(n: nat): (s: set<nat>)
    ensures |s| == n && forall i: nat :: i in s <==> i < n
  {
    if n == 0 then {} else Below(n - 1) + {n - 1}
  }

  /** A ranking leaves out no position. */
  lemma {:induction false} RankingCovers(order: seq<nat>, n: nat, j: nat)
    requires |order| == n && j < n
    requires forall i :: 0 <= i < n ==> order[i] < n
    requires forall i, k :: 0 <= i < k < n ==> order[i] != order[k]
    ensures j in order
  {
    var hit := set i | 0 <= i < n :: order[i];
    DistinctCount(order);
    var all := Below(n);
    if j !in hit {
      SubsetCount(hit, all - {j});
    }
  }

  lemma {:induction false} DistinctCount(order: seq<nat>)
    requires forall i, k :: 0 <= i < k < |order| ==> order[i] != order[k]
    ensures |set i | 0 <= i < |order| :: order[i]| == |order|
  {
    if order != [] {
      var n := |order| - 1;
      DistinctCount(order[..n]);
      assert (set i | 0 <= i < |order| :: order[i]) == (set i | 0 <= i < n :: order[..n][i]) + {order[n]};
    }
  }

  lemma {:induction false} SubsetCount<T>(a: set<T>, b: set<T>)
    requires a <= b
    ensures |a| <= |b|
  {
    assert b == a + (b - a);
  }

  /**
    A search returns min(k, size) items of the partition, each position at most once, with
    their cosine scores in descending order, and leaves out none that scores higher than
    one it returns.
    */
  lemma TopHitsOptimal(rank: Ranker, part: seq<Item>, query: Vec, k: int)
    requires ValidRanker(rank)
    ensures var hits, order := TopHits(rank, part, query, k), rank(Scores(part, query));
            && |hits| == Smaller(|part|, if k > 0 then k else 5)
            && |order| == |part|
            && (forall i :: 0 <= i < |hits| ==>
                  order[i] < |part| && hits[i] == Hit(part[order[i]], CosineOf(query, part[order[i]].vec)))
            && (forall i, j :: 0 <= i < j < |hits| ==> order[i] != order[j] && hits[i].score >= hits[j].score)
            && (forall i, j :: 0 <= i < |hits| && 0 <= j < |part| && j !in order[..|hits|] ==>
                  hits[i].score >= CosineOf(query, part[j].vec))
  {
    var scores := Scores(part, query);
    var order := rank(scores);
    assert IsRanking(order, scores);
    var m := |TopHits(rank, part, query, k)|;
    forall j | 0 <= j < |part| && j !in order[..m]
      ensures exists p :: m <= p < |part| && order[p] == j
    {
      RankingCovers(order, |part|, j);
      var p :| 0 <= p < |part| && order[p] == j;
      assert forall q :: 0 <= q < m ==> order[..m][q] == order[q];
    }
  }

  // ----- the scores of a search -----

  function ScoreOf(query: Vec): Item -> real {
    (it: Item) => CosineOf(query, it.vec)
  }

  function At(scores: seq<real>): nat -> real {
    (i: nat) => if i < |scores| then scores[i] else 0.0
  }

  function UpTo(n: nat): (s: seq<nat>)
    ensures |s| == n && forall i :: 0 <= i < n ==> s[i] == i
  {
    seq(n, i => i)
  }

  /** A ranking is a permutation of the positions, so it keeps the scores. */
  lemma RankedPermutes(order: seq<nat>, scores: seq<real>)
    requires IsRanking(order, scores)
    ensures Descending(Mapped(order, At(scores)))
    ensures multiset(Mapped(order, At(scores))) == multiset(scores)
  {
    var n := |scores|;
    forall j
      ensures j in order <==> j in UpTo(n)
    {
      if j in order {
        assert j < n && UpTo(n)[j] == j;
      }
      if j in UpTo(n) {
        RankingCovers(order, n, j);
      }
    }
    SameMembers(order, UpTo(n));
    MappedPermuted(order, UpTo(n), At(scores));
    assert Mapped(UpTo(n), At(scores)) == scores;
  }

  /** The scores a search shows depend on which scores there are, not on the order of the items. */
  lemma TopScoresSame(rank: Ranker, one: seq<Item>, two: seq<Item>, query: Vec, k: int)
    requires ValidRanker(rank) && multiset(Scores(one, query)) == multiset(Scores(two, query))
    ensures var h, g := TopHits(rank, one, query, k), TopHits(rank, two, query, k);
            |h| == |g| && forall i :: 0 <= i < |h| ==> h[i].score == g[i].score
  {
    var s, t := Scores(one, query), Scores(two, query);
    SameLength(s, t);
    RankedPermutes(rank(s), s);
    RankedPermutes(rank(t), t);
    OneDescending(Mapped(rank(s), At(s)), Mapped(rank(t), At(t)));
    TopScores(rank, one, query, k);
    TopScores(rank, two, query, k);
  }

  lemma TopScores(rank: Ranker, part: seq<Item>, query: Vec, k: int)
    requires ValidRanker(rank)
    ensures var h, s := TopHits(rank, part, query, k), Scores(part, query);
            && |h| == Smaller(|part|, if k > 0 then k else 5) <= |rank(s)|
            && forall i :: 0 <= i < |h| ==> h[i].score == Mapped(rank(s), At(s))[i]
  {
    assert IsRanking(rank(Scores(part, query)), Scores(part, query));
  }
}
