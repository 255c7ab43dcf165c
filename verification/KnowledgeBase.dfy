/**
  The incident knowledge base, the second writer into the vector index.
  */
module KnowledgeBase {
  import opened Embedding
  import opened Model
  import opened Text
  import opened VectorIndex

  datatype Kind = Runbook | Postmortem

  function KindName(k: Kind): string {
    match k
    case Runbook => "runbook"
    case Postmortem => "postmortem"
  }

  datatype Doc = Doc(id: nat, tenant: string, kind: Kind, title: string, content: string, tags: seq<string>)

  const KB_PREFIX := "kb:"

  function KbRef(d: Doc): string {
    KB_PREFIX + (KindName(d.kind) + [':'] + Dec(d.id))
  }

  /** How texts become vectors: an embedder and the name of its version. */
  datatype VecModel = VecModel(embed: string -> Vec, version: string)

  function DocItem(m: VecModel, d: Doc): Item {
    Item(d.tenant, KbRef(d), KindName(d.kind), m.embed(d.title + "\n" + d.content), m.version)
  }

  /** Documents are filed under their own numbers. */
  predicate Filed(docs: map<nat, Doc>) {
    forall id :: id in docs ==> docs[id].id == id
  }

  predicate Answers(d: Doc, tenant: string, ref: string) {
    d.tenant == tenant && KbRef(d) == ref
  }

  /** The document a reference stands for within a tenant. */
  ghost function DocByRef(docs: map<nat, Doc>, tenant: string, ref: string): Option<Doc> {
    if exists id :: id in docs && Answers(docs[id], tenant, ref) then
      var id :| id in docs && Answers(docs[id], tenant, ref);
      Some(docs[id])
    else None
  }

  class Store {
    var docs: map<nat, Doc>
    var nextId: nat
    const model: VecModel
    const vec: MemVectorStore

    ghost predicate Valid()
      reads this
    {
      Filed(docs) && forall id :: id in docs ==> id <= nextId
    }

    constructor (model: VecModel, vec: MemVectorStore)
      ensures Valid() && docs == map[] && this.model == model && this.vec == vec
    {
      docs, nextId := map[], 0;
      this.model, this.vec := model, vec;
    }

    /** Files a document under a new number and indexes it; nothing filed before changes. */
    method Add(tenant: string, kind: Kind, title: string, content: string, tags: seq<string>) returns (d: Doc)
      requires Valid()
      modifies this, vec
      ensures Valid()
      ensures d == Doc(old(nextId) + 1, tenant, kind, title, content, tags)
      ensures d.id !in old(docs) && docs == old(docs)[d.id := d] && nextId == d.id
      ensures vec.View() == Upserted(old(vec.View()), DocItem(model, d))
    {
      nextId := nextId + 1;
      d := Doc(nextId, tenant, kind, title, content, tags);
      docs := docs[d.id := d];
      vec.Upsert(Item(tenant, KbRef(d), KindName(kind), model.embed(title + "\n" + content), model.version));
    }

    /** Scans the documents in any order; the answer does not depend on it. */
    method GetByRef(tenant: string, ref: string) returns (r: Option<Doc>)
      requires Valid()
      ensures r == DocByRef(docs, tenant, ref)
    {
      var ids := docs.Keys;
      while ids != {}
        invariant ids <= docs.Keys
        invariant forall id :: id in docs && id !in ids ==> !Answers(docs[id], tenant, ref)
      {
        var id :| id in ids;
        var d := docs[id];
        if d.tenant == tenant && KbRef(d) == ref {
          OneAnswer(docs, tenant, ref, id);
          return Some(d);
        }
        ids := ids - {id};
      }
      return None;
    }
  }

  lemma KbRefText(d: Doc)
    ensures KbRef(d) == (if d.kind == Runbook then "kb:runbook:" else "kb:postmortem:") + Dec(d.id)
  {
    assert KB_PREFIX + ("runbook" + [':'] + Dec(d.id)) == "kb:runbook:" + Dec(d.id);
    assert KB_PREFIX + ("postmortem" + [':'] + Dec(d.id)) == "kb:postmortem:" + Dec(d.id);
  }

  lemma KbRefInjective(d: Doc, e: Doc)
    requires KbRef(d) == KbRef(e)
    ensures d.kind == e.kind && d.id == e.id
  {
    assert KbRef(d)[3..] == KindName(d.kind) + [':'] + Dec(d.id);
    assert KbRef(e)[3..] == KindName(e.kind) + [':'] + Dec(e.id);
    SplitFirst(KindName(d.kind), Dec(d.id), KindName(e.kind), Dec(e.id), ':');
    assert KindName(Runbook)[0] != KindName(Postmortem)[0];
    DecInjective(d.id, e.id);
  }

  /** At most one document answers to a reference. */
  lemma OneAnswer(docs: map<nat, Doc>, tenant: string, ref: string, id: nat)
    requires Filed(docs) && id in docs && Answers(docs[id], tenant, ref)
    ensures DocByRef(docs, tenant, ref) == Some(docs[id])
  {
    var d := DocByRef(docs, tenant, ref).value;
    KbRefInjective(d, docs[id]);
  }

  lemma KbRefNulFree(d: Doc)
    ensures Free(KbRef(d), NUL)
  {
    DecFree(d.id, NUL);
  }
}
