/**
  The running pipeline as a transition system: publishers, the writer, the embedding worker
  and additions to the knowledge base, interleaved in any order.

  Every locked or atomic operation of the program is one action. The writer's select, the
  worker's pass and an addition to the knowledge base are several actions each, so that
  others can come in between. An action that is not possible in a state leaves it as it is.
  */
module Pipeline {
  import opened EmbedWorker
  import opened Filters
  import opened Ingest
  import opened KnowledgeBase
  import opened LogStore
  import opened Model
  import opened Redaction
  import opened Text
  import opened VectorIndex

  datatype Config = Config(rules: Rules, env: Env, size: nat, cap: nat, batch: int)
  {
    ghost predicate Valid() {
      rules.Faithful() && batch > 0
    }

    /** The batch length at which the writer flushes; a size of zero flushes every entry. */
    function Full(): nat {
      if size == 0 then 1 else size
    }
  }

  // ----- buffer and writer -----

  /** Where the writer stands; `Flushing` is between a decision to flush and the write. */
  datatype Phase = Looping | Draining | Flushing(next: Phase) | Exited

  /** `accepted` is the history of all entries ever accepted. */
  datatype Front = Front(
    ch: seq<LogEntry>, closed: bool, cancelled: bool, accepted: seq<LogEntry>,
    writer: Phase, batch: seq<LogEntry>)

  datatype FrontAction =
    | Publish(tenant: string, now: Instant, raw: LogEntry)
    | Close
    | Cancel
    | Drain
    | Receive
    | TimeOut
    | GiveUp
    | Flush

  function FrontStep(c: Config, f: Front, log: Log, a: FrontAction): (Front, Log) {
    match a
    case Publish(tenant, now, raw) =>
      if f.closed || !raw.Validates() || |f.ch| >= c.cap then (f, log)
      else
        var e := Prepared(c.rules, tenant, now, raw);
        (f.(ch := f.ch + [e], accepted := f.accepted + [e]), log)
    case Close => (f.(closed := true), log)
    case Cancel => (f.(cancelled := true), log)
    case Drain => if f.cancelled && f.writer == Looping then (f.(writer := Draining), log) else (f, log)
    case Receive =>
      if f.writer != Looping && f.writer != Draining then (f, log)
      else if f.ch == [] then (if f.closed then f.(writer := Flushing(Exited)) else f, log)
      else
        var e := f.ch[0];
        var batch := if e.redacted then f.batch + [e] else f.batch;
        (f.(ch := f.ch[1..], batch := batch, writer := if |batch| >= c.size then Flushing(f.writer) else f.writer), log)
    case TimeOut => if f.writer == Looping then (f.(writer := Flushing(Looping)), log) else (f, log)
    case GiveUp =>
      if f.writer == Draining && f.ch == [] && !f.closed then (f.(writer := Flushing(Exited)), log) else (f, log)
    case Flush =>
      if f.writer.Flushing? then (f.(batch := [], writer := f.writer.next), Persist(log, f.batch)) else (f, log)
  }

  predicate Sound(accepted: seq<LogEntry>) {
    forall i :: 0 <= i < |accepted| ==> accepted[i].redacted && accepted[i].message != ""
  }

  /** Stored, batched and buffered entries are together what was accepted, in order. */
  predicate FrontInv(c: Config, f: Front, log: Log) {
    && Numbered(log)
    && Contents(log) + f.batch + f.ch == f.accepted
    && Sound(f.accepted)
    && |f.ch| <= c.cap
    && match f.writer
       case Flushing(next) => |f.batch| <= c.Full() && !next.Flushing?
       case Exited => f.batch == []
       case _ => |f.batch| < c.Full()
  }

  lemma PublishKeeps(c: Config, f: Front, log: Log, tenant: string, now: Instant, raw: LogEntry)
    requires c.Valid() && FrontInv(c, f, log)
    ensures var r := FrontStep(c, f, log, Publish(tenant, now, raw)); FrontInv(c, r.0, r.1) && log == r.1
  {
    var r := FrontStep(c, f, log, Publish(tenant, now, raw));
    if r.0 != f {
      PreparedSafe(c.rules, tenant, now, raw);
      hide Prepared;
      var e := Prepared(c.rules, tenant, now, raw);
      assert Contents(log) + f.batch + (f.ch + [e]) == f.accepted + [e];
    }
  }

  lemma ReceiveKeeps(c: Config, f: Front, log: Log)
    requires FrontInv(c, f, log)
    ensures var r := FrontStep(c, f, log, Receive); FrontInv(c, r.0, r.1) && log == r.1
  {
    if f.ch != [] {
      var e, k := f.ch[0], |Contents(log)| + |f.batch|;
      assert f.accepted[k] == e;
      assert Contents(log) + (f.batch + [e]) + f.ch[1..] == f.accepted;
    }
  }

  lemma FlushKeeps(c: Config, f: Front, log: Log)
    requires FrontInv(c, f, log)
    ensures var r := FrontStep(c, f, log, Flush); FrontInv(c, r.0, r.1) && log <= r.1
  {
    forall i | 0 <= i < |f.batch|
      ensures f.batch[i].redacted
    {
      assert f.accepted[|log| + i] == f.batch[i];
    }
    PersistContents(log, f.batch);
    assert Contents(log) + f.batch + [] + f.ch == Contents(log) + f.batch + f.ch;
  }

  lemma FrontKeeps(c: Config, f: Front, log: Log, a: FrontAction)
    requires c.Valid() && FrontInv(c, f, log)
    ensures var r := FrontStep(c, f, log, a); FrontInv(c, r.0, r.1) && log <= r.1
  {
    match a {
      case Publish(tenant, now, raw) => PublishKeeps(c, f, log, tenant, now, raw);
      case Receive => ReceiveKeeps(c, f, log);
      case Flush => FlushKeeps(c, f, log);
      case _ =>
    }
  }

  // ----- the embedding worker -----

  /** `marked`: the hash of the next entry is recorded, its item not yet in the index. */
  datatype Pass = Idle | Read(from: nat) | Working(entries: Log, next: nat, marked: bool)

  datatype WorkerState = WorkerState(lastId: nat, seen: set<string>, pass: Pass)

  datatype WorkAction = ReadCheckpoint | ReadLog | Mark | Index | Advance

  function WorkStep(c: Config, w: WorkerState, log: Log, ix: Index, a: WorkAction): (WorkerState, Index) {
    match (a, w.pass)
    case (ReadCheckpoint, Idle) => (w.(pass := Read(w.lastId)), ix)
    case (ReadLog, Read(from)) =>
      var entries := Newer(log, from, c.batch);
      (w.(pass := if entries == [] then Idle else Working(entries, 0, false)), ix)
    case (Mark, Working(entries, next, marked)) =>
      if marked || next >= |entries| then (w, ix)
      else
        var h := HashOf(c.env, entries[next]);
        if h in w.seen then (w.(pass := Working(entries, next + 1, false)), ix)
        else (w.(seen := w.seen + {h}, pass := Working(entries, next, true)), ix)
    case (Index, Working(entries, next, marked)) =>
      if !marked || next >= |entries| then (w, ix)
      else (w.(pass := Working(entries, next + 1, false)), Upserted(ix, ItemOf(c.env, entries[next])))
    case (Advance, Working(entries, next, marked)) =>
      if next < |entries| || entries == [] then (w, ix)
      else
        var last := entries[|entries| - 1].id;
        (w.(lastId := if last > w.lastId then last else w.lastId, pass := Idle), ix)
    case _ => (w, ix)
  }

  /** How many entries of the log are in the index. */
  function Processed(w: WorkerState): nat {
    w.lastId + if w.pass.Working? then w.pass.next else 0
  }

  function Marked(w: WorkerState): bool {
    w.pass.Working? && w.pass.marked
  }

  /**
    The index is what the processed prefix of the log makes of it, and the hashes seen are
    those of that prefix, one entry further while an entry is marked.
    */
  ghost predicate WorkerInv(c: Config, w: WorkerState, log: Log, ix: Index) {
    var p := Processed(w);
    && p <= |log|
    && Indexed(c.env, log, p, ix)
    && (w.pass.Read? ==> w.pass.from == w.lastId)
    && (w.pass.Working? ==>
          && 0 < |w.pass.entries| && w.lastId + |w.pass.entries| <= |log|
          && w.pass.entries == log[w.lastId..w.lastId + |w.pass.entries|]
          && w.pass.next <= |w.pass.entries|)
    && (if Marked(w)
        then w.pass.next < |w.pass.entries| && HashOf(c.env, log[p]) !in Hashes(c.env, log[..p])
          && w.seen == Hashes(c.env, log[..p + 1])
        else w.seen == Hashes(c.env, log[..p]))
  }

  lemma ReadLogKeeps(c: Config, w: WorkerState, log: Log, ix: Index)
    requires c.Valid() && Numbered(log) && WorkerInv(c, w, log, ix)
    ensures var r := WorkStep(c, w, log, ix, ReadLog); WorkerInv(c, r.0, log, r.1)
  {
    hide Indexed;
    hide Hashes;
    hide Newer;
    if w.pass.Read? {
      NewerContinues(log, w.lastId, c.batch);
      var entries := Newer(log, w.lastId, c.batch);
      assert entries == log[w.lastId..][..|entries|] == log[w.lastId..w.lastId + |entries|];
    }
  }

  lemma MarkKeeps(c: Config, w: WorkerState, log: Log, ix: Index)
    requires Numbered(log) && WorkerInv(c, w, log, ix)
    ensures var r := WorkStep(c, w, log, ix, Mark); WorkerInv(c, r.0, log, r.1)
  {
    hide Indexed;
    hide Hashes;
    hide HashOf;
    if w.pass.Working? && !w.pass.marked && w.pass.next < |w.pass.entries| {
      var p := Processed(w);
      assert w.pass.entries[w.pass.next] == log[p];
      HashesNext(c.env, log, p);
      if HashOf(c.env, log[p]) in w.seen {
        DuplicateIndexed(c.env, log, p, ix);
      }
    }
  }

  lemma IndexKeeps(c: Config, w: WorkerState, log: Log, ix: Index)
    requires Numbered(log) && WorkerInv(c, w, log, ix)
    ensures var r := WorkStep(c, w, log, ix, WorkAction.Index); WorkerInv(c, r.0, log, r.1)
  {
    hide Indexed;
    hide Hashes;
    hide Upserted;
    if Marked(w) {
      var p := Processed(w);
      assert w.pass.entries[w.pass.next] == log[p];
      UpsertIndexed(c.env, log, p, ix);
    }
  }

  lemma AdvanceKeeps(c: Config, w: WorkerState, log: Log, ix: Index)
    requires Numbered(log) && WorkerInv(c, w, log, ix)
    ensures var r := WorkStep(c, w, log, ix, Advance); WorkerInv(c, r.0, log, r.1)
  {
    hide Indexed;
    hide Hashes;
    if w.pass.Working? && w.pass.next == |w.pass.entries| {
      var n := |w.pass.entries|;
      assert w.pass.entries[n - 1] == log[w.lastId + n - 1];
    }
  }

  lemma WorkKeeps(c: Config, w: WorkerState, log: Log, ix: Index, a: WorkAction)
    requires c.Valid() && Numbered(log) && WorkerInv(c, w, log, ix)
    ensures var r := WorkStep(c, w, log, ix, a); WorkerInv(c, r.0, log, r.1)
  {
    match a {
      case ReadCheckpoint =>
      case ReadLog => ReadLogKeeps(c, w, log, ix);
      case Mark => MarkKeeps(c, w, log, ix);
      case Index => IndexKeeps(c, w, log, ix);
      case Advance => AdvanceKeeps(c, w, log, ix);
    }
  }

  lemma GrowthKeeps(c: Config, w: WorkerState, log: Log, grown: Log, ix: Index)
    requires WorkerInv(c, w, log, ix) && log <= grown
    ensures WorkerInv(c, w, grown, ix)
  {
    hide Hashes;
    hide Indexed;
    var p := Processed(w);
    GrownIndexed(c.env, log, grown, p, ix);
    if w.pass.Working? {
      var k := w.lastId + |w.pass.entries|;
      assert grown[w.lastId..k] == log[w.lastId..k];
      assert p < |w.pass.entries| + w.lastId ==> grown[p] == log[p] && grown[..p + 1] == log[..p + 1];
    }
  }

  // ----- the knowledge base -----

  /** `numbered`: has a number but is not filed yet; `filed`: filed but not indexed yet. */
  datatype KbState = KbState(docs: map<nat, Doc>, nextId: nat, numbered: set<Doc>, filed: set<Doc>)

  datatype KbAction =
    | Number(tenant: string, kind: Kind, title: string, content: string, tags: seq<string>)
    | File(doc: Doc)
    | IndexDoc(doc: Doc)

  function KbStep(c: Config, kb: KbState, ix: Index, a: KbAction): (KbState, Index) {
    match a
    case Number(tenant, kind, title, content, tags) =>
      var d := Doc(kb.nextId + 1, tenant, kind, title, content, tags);
      (kb.(nextId := d.id, numbered := kb.numbered + {d}), ix)
    case File(d) =>
      if d !in kb.numbered then (kb, ix)
      else (kb.(docs := kb.docs[d.id := d], numbered := kb.numbered - {d}, filed := kb.filed + {d}), ix)
    case IndexDoc(d) =>
      if d !in kb.filed then (kb, ix)
      else (kb.(filed := kb.filed - {d}), Upserted(ix, DocItem(c.env.model, d)))
  }

  predicate KbInv(kb: KbState) {
    && Filed(kb.docs)
    && (forall id :: id in kb.docs ==> id <= kb.nextId)
    && (forall d :: d in kb.numbered ==> d.id <= kb.nextId && d.id !in kb.docs)
    && (forall d, e :: d in kb.numbered && e in kb.numbered && d.id == e.id ==> d == e)
    && (forall d :: d in kb.filed ==> d.id in kb.docs && kb.docs[d.id] == d)
  }

  predicate HasDoc(docs: map<nat, Doc>, tenant: string, ref: string) {
    exists id :: id in docs && Answers(docs[id], tenant, ref)
  }

  /** The item of a filed document of the tenant. */
  predicate IsDocItem(m: VecModel, docs: map<nat, Doc>, tenant: string, it: Item) {
    exists id :: id in docs && docs[id].tenant == tenant && it == DocItem(m, docs[id])
  }

  /** Every item that does not come from the log is that of a filed document of its tenant. */
  predicate DocsBehind(m: VecModel, docs: map<nat, Doc>, ix: Index) {
    forall t, i :: t in ix.items && 0 <= i < |ix.items[t]| && !IsLogItem(ix.items[t][i]) ==>
      IsDocItem(m, docs, t, ix.items[t][i])
  }

  /** Every filed document has its item, unless it is still to be indexed. */
  predicate DocsThere(m: VecModel, kb: KbState, ix: Index) {
    forall id :: id in kb.docs && kb.docs[id].tenant != "" && kb.docs[id] !in kb.filed ==>
      DocItem(m, kb.docs[id]) in Partition(ix, kb.docs[id].tenant)
  }

  lemma MoreDocs(m: VecModel, docs: map<nat, Doc>, d: Doc, ix: Index)
    requires DocsBehind(m, docs, ix) && d.id !in docs
    ensures DocsBehind(m, docs[d.id := d], ix)
  {
    forall t, i | t in ix.items && 0 <= i < |ix.items[t]| && !IsLogItem(ix.items[t][i])
      ensures IsDocItem(m, docs[d.id := d], t, ix.items[t][i])
    {
      assert IsDocItem(m, docs, t, ix.items[t][i]);
      var id :| id in docs && docs[id].tenant == t && ix.items[t][i] == DocItem(m, docs[id]);
      assert docs[d.id := d][id] == docs[id];
    }
  }

  lemma UpsertBehind(m: VecModel, docs: map<nat, Doc>, it: Item, ix: Index)
    requires DocsBehind(m, docs, ix) && (IsLogItem(it) || IsDocItem(m, docs, it.tenant, it))
    ensures DocsBehind(m, docs, Upserted(ix, it))
  {
    hide IsDocItem;
  }

  lemma UpsertGrows(ix: Index, it: Item, t: string)
    ensures Partition(ix, t) <= Partition(Upserted(ix, it), t)
  {
  }

  lemma UpsertThere(m: VecModel, kb: KbState, it: Item, ix: Index)
    requires DocsThere(m, kb, ix)
    ensures DocsThere(m, kb, Upserted(ix, it))
  {
    hide Upserted;
    hide DocItem;
    forall id | id in kb.docs && kb.docs[id].tenant != "" && kb.docs[id] !in kb.filed
      ensures DocItem(m, kb.docs[id]) in Partition(Upserted(ix, it), kb.docs[id].tenant)
    {
      UpsertGrows(ix, it, kb.docs[id].tenant);
    }
  }

  /** Documents once filed stay as they are. */
  predicate KeepsDocs(docs: map<nat, Doc>, later: map<nat, Doc>) {
    docs.Keys <= later.Keys && forall id :: id in docs ==> later[id] == docs[id]
  }

  lemma KbFilesKeep(c: Config, kb: KbState, ix: Index, a: KbAction)
    requires KbInv(kb)
    ensures var r := KbStep(c, kb, ix, a); KbInv(r.0) && KeepsDocs(kb.docs, r.0.docs)
  {
    hide Upserted;
    match a {
      case Number(_, _, _, _, _) =>
      case File(d) =>
        if d in kb.numbered {
          FileKeeps(kb, d);
        }
      case IndexDoc(_) =>
    }
  }

  lemma FileKeeps(kb: KbState, d: Doc)
    requires KbInv(kb) && d in kb.numbered
    ensures KbInv(kb.(docs := kb.docs[d.id := d], numbered := kb.numbered - {d}, filed := kb.filed + {d}))
  {
    var docs := kb.docs[d.id := d];
    forall e | e in kb.numbered - {d}
      ensures e.id !in docs
    {
    }
    forall e | e in kb.filed
      ensures docs[e.id] == e
    {
    }
  }

  lemma RefOfLogItem(c: Config, w: WorkerState, log: Log, ix: Index, t: string, i: nat)
    requires WorkerInv(c, w, log, ix) && Numbered(log) && t != ""
    requires i < |Partition(ix, t)| && IsLogItem(Partition(ix, t)[i])
    ensures LOG_PREFIX <= Partition(ix, t)[i].ref
  {
    var it := Partition(ix, t)[i];
    FilterElements(Partition(ix, t), IsLogItem);
    assert it in LogPart(ix, t);
    LogItemRefs(c.env, t, log, Processed(w), it);
  }

  /** Items with a document's reference are that document's. */
  lemma RefOfDoc(c: Config, docs: map<nat, Doc>, w: WorkerState, log: Log, ix: Index, d: Doc, i: nat)
    requires Filed(docs) && d.id in docs && docs[d.id] == d && d.tenant != ""
    requires DocsBehind(c.env.model, docs, ix) && WorkerInv(c, w, log, ix) && Numbered(log)
    requires i < |Partition(ix, d.tenant)| && Partition(ix, d.tenant)[i].ref == KbRef(d)
    ensures Partition(ix, d.tenant)[i] == DocItem(c.env.model, d)
  {
    var t, it := d.tenant, Partition(ix, d.tenant)[i];
    assert KbRef(d)[0] == 'k';
    if IsLogItem(it) {
      RefOfLogItem(c, w, log, ix, t, i);
    } else {
      assert it == ix.items[t][i];
      var id :| id in docs && docs[id].tenant == t && it == DocItem(c.env.model, docs[id]);
      KbRefInjective(docs[id], d);
    }
  }

  /** Indexing a document leaves its item in the index, even if the key was taken. */
  lemma DocNowThere(c: Config, docs: map<nat, Doc>, w: WorkerState, log: Log, ix: Index, d: Doc)
    requires Filed(docs) && d.id in docs && docs[d.id] == d && d.tenant != ""
    requires DocsBehind(c.env.model, docs, ix) && WorkerInv(c, w, log, ix) && Numbered(log)
    ensures DocItem(c.env.model, d) in Partition(Upserted(ix, DocItem(c.env.model, d)), d.tenant)
  {
    if Key(d.tenant, KbRef(d)) in ix.byRef {
      KbRefNulFree(d);
      KeyTaken(ix, d.tenant, KbRef(d));
      var i :| 0 <= i < |Partition(ix, d.tenant)| && Partition(ix, d.tenant)[i].ref == KbRef(d);
      RefOfDoc(c, docs, w, log, ix, d, i);
    }
  }

  /** A document whose turn has come is indexed. */
  lemma DocIndexKeeps(c: Config, kb: KbState, w: WorkerState, log: Log, ix: Index, d: Doc)
    requires KbInv(kb) && d in kb.filed && DocsBehind(c.env.model, kb.docs, ix) && DocsThere(c.env.model, kb, ix)
    requires WorkerInv(c, w, log, ix) && Numbered(log)
    ensures var after := Upserted(ix, DocItem(c.env.model, d));
            && DocsBehind(c.env.model, kb.docs, after)
            && DocsThere(c.env.model, kb.(filed := kb.filed - {d}), after)
            && WorkerInv(c, w, log, after)
  {
    DocIndexed(c.env, log, Processed(w), ix, d);
    assert IsDocItem(c.env.model, kb.docs, d.tenant, DocItem(c.env.model, d));
    UpsertBehind(c.env.model, kb.docs, DocItem(c.env.model, d), ix);
    UpsertThere(c.env.model, kb, DocItem(c.env.model, d), ix);
    if d.tenant != "" {
      DocNowThere(c, kb.docs, w, log, ix, d);
    }
    hide Upserted;
    hide DocItem;
    hide Indexed;
    hide Hashes;
    hide DocsBehind;
  }

  lemma KbIndexKeeps(c: Config, kb: KbState, w: WorkerState, log: Log, ix: Index, a: KbAction)
    requires KbInv(kb) && DocsBehind(c.env.model, kb.docs, ix) && DocsThere(c.env.model, kb, ix)
    requires WorkerInv(c, w, log, ix) && Numbered(log)
    ensures var r := KbStep(c, kb, ix, a);
            && DocsBehind(c.env.model, r.0.docs, r.1)
            && DocsThere(c.env.model, r.0, r.1)
            && WorkerInv(c, w, log, r.1)
  {
    hide WorkerInv;
    hide Upserted;
    hide DocItem;
    match a {
      case Number(_, _, _, _, _) =>
      case File(d) =>
        if d in kb.numbered {
          hide DocsBehind;
          MoreDocs(c.env.model, kb.docs, d, ix);
        }
      case IndexDoc(d) =>
        if d in kb.filed {
          hide DocsBehind;
          hide DocsThere;
          DocIndexKeeps(c, kb, w, log, ix, d);
        }
    }
  }

  // ----- the whole system -----

  datatype State = State(front: Front, log: Log, worker: WorkerState, kb: KbState, ix: Index)

  datatype Action = OfFront(front: FrontAction) | OfWorker(work: WorkAction) | OfKb(kb: KbAction)

  const INITIAL := State(
    Front([], false, false, [], Looping, []), [], WorkerState(0, {}, Idle), KbState(map[], 0, {}, {}), EMPTY)

  function Next(c: Config, s: State, a: Action): State {
    match a
    case OfFront(b) => var r := FrontStep(c, s.front, s.log, b); s.(front := r.0, log := r.1)
    case OfWorker(b) => var r := WorkStep(c, s.worker, s.log, s.ix, b); s.(worker := r.0, ix := r.1)
    case OfKb(b) => var r := KbStep(c, s.kb, s.ix, b); s.(kb := r.0, ix := r.1)
  }

  /** The state a schedule leads to from `s`. */
  function From(c: Config, s: State, schedule: seq<Action>): State {
    if schedule == [] then s
    else Next(c, From(c, s, schedule[..|schedule| - 1]), schedule[|schedule| - 1])
  }

  function Reach(c: Config, schedule: seq<Action>): State {
    From(c, INITIAL, schedule)
  }

  ghost predicate Inv(c: Config, s: State) {
    && FrontInv(c, s.front, s.log)
    && WorkerInv(c, s.worker, s.log, s.ix)
    && KbInv(s.kb)
    && DocsBehind(c.env.model, s.kb.docs, s.ix)
    && DocsThere(c.env.model, s.kb, s.ix)
  }

  /** What is stored and filed in one state is still so in a later one. */
  predicate Extends(s: State, later: State) {
    s.log <= later.log && KeepsDocs(s.kb.docs, later.kb.docs)
  }

  /** Every action of every part keeps the invariant of the whole. */
  lemma StepKeeps(c: Config, s: State, a: Action)
    requires c.Valid() && Inv(c, s)
    ensures Inv(c, Next(c, s, a)) && Extends(s, Next(c, s, a))
  {
    hide FrontInv;
    hide WorkerInv;
    hide KbInv;
    hide DocsBehind;
    hide DocsThere;
    hide FrontStep;
    hide WorkStep;
    hide KbStep;
    FrontNumbers(c, s.front, s.log);
    match a {
      case OfFront(b) =>
        FrontKeeps(c, s.front, s.log, b);
        GrowthKeeps(c, s.worker, s.log, FrontStep(c, s.front, s.log, b).1, s.ix);
      case OfWorker(b) =>
        WorkKeeps(c, s.worker, s.log, s.ix, b);
        WorkBehind(c, s, b);
      case OfKb(b) =>
        KbFilesKeep(c, s.kb, s.ix, b);
        KbIndexKeeps(c, s.kb, s.worker, s.log, s.ix, b);
    }
  }

  lemma FrontNumbers(c: Config, f: Front, log: Log)
    requires FrontInv(c, f, log)
    ensures Numbered(log)
  {
  }

  lemma WorkBehind(c: Config, s: State, a: WorkAction)
    requires DocsBehind(c.env.model, s.kb.docs, s.ix) && DocsThere(c.env.model, s.kb, s.ix)
    ensures var ix := WorkStep(c, s.worker, s.log, s.ix, a).1;
            DocsBehind(c.env.model, s.kb.docs, ix) && DocsThere(c.env.model, s.kb, ix)
  {
    hide DocsBehind;
    hide DocsThere;
    if a == WorkAction.Index && Marked(s.worker) && s.worker.pass.next < |s.worker.pass.entries| {
      var it := ItemOf(c.env, s.worker.pass.entries[s.worker.pass.next]);
      UpsertBehind(c.env.model, s.kb.docs, it, s.ix);
      UpsertThere(c.env.model, s.kb, it, s.ix);
    }
  }

  lemma {:induction false} RunKeeps(c: Config, s: State, schedule: seq<Action>)
    requires c.Valid() && Inv(c, s)
    ensures Inv(c, From(c, s, schedule)) && Extends(s, From(c, s, schedule))
  {
    if schedule != [] {
      hide Inv;
      hide Next;
      var n := |schedule| - 1;
      RunKeeps(c, s, schedule[..n]);
      StepKeeps(c, From(c, s, schedule[..n]), schedule[n]);
    }
  }

  /** The invariant holds after every schedule. */
  lemma ReachKeeps(c: Config, schedule: seq<Action>)
    requires c.Valid()
    ensures Inv(c, Reach(c, schedule))
  {
    assert Contents([]) == [];
    EmptyIndexed(c.env, []);
    RunKeeps(c, INITIAL, schedule);
  }

  // ----- main results -----

  /**
    After every schedule, whatever the batch size and the interleaving, even in the middle of
    a pass: each tenant's log items are exactly what the processed prefix of the log
    determines, and the hashes seen are those of that prefix (and of the marked entry).
    */
  lemma IndexDeterminedByLog(c: Config, schedule: seq<Action>, t: string)
    requires c.Valid() && t != ""
    ensures var s := Reach(c, schedule);
            var p := Processed(s.worker);
            && p <= |s.log|
            && LogPart(s.ix, t) == LogItems(c.env, t, s.log[..p])
            && (if Marked(s.worker) then p < |s.log| && s.worker.seen == Hashes(c.env, s.log[..p + 1])
                else s.worker.seen == Hashes(c.env, s.log[..p]))
  {
    ReachKeeps(c, schedule);
  }

  /** Two runs that stored and processed the same agree on the index, however they got there. */
  lemma ScheduleIrrelevant(c: Config, d: Config, one: seq<Action>, two: seq<Action>, t: string)
    requires c.Valid() && d.Valid() && c.env == d.env && t != ""
    requires Reach(c, one).log == Reach(d, two).log
    requires Processed(Reach(c, one).worker) == Processed(Reach(d, two).worker)
    ensures LogPart(Reach(c, one).ix, t) == LogPart(Reach(d, two).ix, t)
  {
    IndexDeterminedByLog(c, one, t);
    IndexDeterminedByLog(d, two, t);
  }

  /** After every schedule: stored ++ batch ++ channel is the accepted sequence. */
  lemma NothingLostInside(c: Config, schedule: seq<Action>)
    requires c.Valid()
    ensures var s := Reach(c, schedule);
            && Contents(s.log) + s.front.batch + s.front.ch == s.front.accepted
            && (s.front.writer == Looping || s.front.writer == Draining ==> |s.front.batch| < c.Full())
            && (s.front.writer == Exited ==>
                  s.front.batch == [] && (Contents(s.log) == s.front.accepted <==> s.front.ch == []))
  {
    ReachKeeps(c, schedule);
    AtExit(c, Reach(c, schedule));
  }

  /** What an exited writer has not stored is what is in the channel. */
  lemma AtExit(c: Config, s: State)
    requires Inv(c, s)
    ensures s.front.writer == Exited ==> (Contents(s.log) == s.front.accepted <==> s.front.ch == [])
  {
    if s.front.writer == Exited {
      assert Contents(s.log) + [] == Contents(s.log);
      assert |s.front.accepted| == |Contents(s.log)| + |s.front.ch|;
    }
  }

  predicate Leaving(p: Phase) {
    p == Exited || p == Flushing(Exited)
  }

  /** The channel is closed, and empty if the writer is leaving. */
  predicate ClosedInTime(f: Front) {
    f.closed && (Leaving(f.writer) ==> f.ch == []) && (f.writer.Flushing? ==> !f.writer.next.Flushing?)
  }

  lemma {:induction false} StaysClosed(c: Config, s: State, schedule: seq<Action>)
    requires ClosedInTime(s.front)
    ensures ClosedInTime(From(c, s, schedule).front)
  {
    if schedule != [] {
      StaysClosed(c, s, schedule[..|schedule| - 1]);
    }
  }

  /** A channel closed in time is stored in full, whatever follows. */
  lemma CloseBeforeExit(c: Config, s: State, after: seq<Action>)
    requires c.Valid() && Inv(c, s) && ClosedInTime(s.front)
    ensures var t := From(c, s, after); t.front.writer == Exited ==> Contents(t.log) == t.front.accepted
  {
    StaysClosed(c, s, after);
    RunKeeps(c, s, after);
    AtExit(c, From(c, s, after));
  }

  // ----- progress -----

  lemma OneMore(c: Config, s: State, schedule: seq<Action>, a: Action)
    ensures From(c, s, schedule + [a]) == Next(c, From(c, s, schedule), a)
  {
    assert (schedule + [a])[..|schedule|] == schedule;
  }

  lemma NoActions(c: Config, s: State)
    ensures From(c, s, []) == s
  {
  }

  lemma {:induction false} Composed(c: Config, s: State, one: seq<Action>, two: seq<Action>)
    ensures From(c, s, one + two) == From(c, From(c, s, one), two)
  {
    hide *;
    if two == [] {
      NoActions(c, From(c, s, one));
      assert one + two == one;
    } else {
      var n := |two| - 1;
      Composed(c, s, one, two[..n]);
      OneMore(c, s, one + two[..n], two[n]);
      OneMore(c, From(c, s, one), two[..n], two[n]);
      assert one + two == one + two[..n] + [two[n]] && two == two[..n] + [two[n]];
    }
  }

  /** Marking and indexing `n` entries in turn; indexing after a duplicate does nothing. */
  function Items(n: nat): seq<Action> {
    if n == 0 then [] else Items(n - 1) + [OfWorker(Mark)] + [OfWorker(WorkAction.Index)]
  }

  lemma MarkAndIndex(c: Config, w: WorkerState, log: Log, ix: Index)
    requires w.pass.Working? && !w.pass.marked && w.pass.next < |w.pass.entries|
    ensures var r := WorkStep(c, w, log, ix, Mark);
            var q := WorkStep(c, r.0, log, r.1, WorkAction.Index);
            q.0.pass == Working(w.pass.entries, w.pass.next + 1, false) && q.0.lastId == w.lastId
  {
    hide HashOf;
    hide Upserted;
    hide ItemOf;
  }

  /** The worker has processed `n` entries of the pass it began in `t`; nothing else has changed. */
  predicate PassAt(t: State, u: State, n: nat) {
    && t.worker.pass.Working? && u.worker.pass == Working(t.worker.pass.entries, n, false)
    && u.worker.lastId == t.worker.lastId && u.log == t.log && u.front == t.front && u.kb == t.kb
  }

  lemma OneItem(c: Config, s: State, t: State, schedule: seq<Action>, n: nat)
    requires PassAt(t, From(c, s, schedule), n) && n < |t.worker.pass.entries|
    ensures PassAt(t, From(c, s, schedule + [OfWorker(Mark)] + [OfWorker(WorkAction.Index)]), n + 1)
  {
    OneMore(c, s, schedule, OfWorker(Mark));
    OneMore(c, s, schedule + [OfWorker(Mark)], OfWorker(WorkAction.Index));
    hide From;
    hide WorkStep;
    var u := From(c, s, schedule);
    MarkAndIndex(c, u.worker, u.log, u.ix);
  }

  lemma {:induction false} ItemsProgress(c: Config, s: State, schedule: seq<Action>, n: nat)
    requires PassAt(From(c, s, schedule), From(c, s, schedule), 0)
    requires n <= |From(c, s, schedule).worker.pass.entries|
    ensures PassAt(From(c, s, schedule), From(c, s, schedule + Items(n)), n)
  {
    hide From;
    if n == 0 {
      assert schedule + Items(0) == schedule;
    } else {
      hide PassAt;
      ItemsProgress(c, s, schedule, n - 1);
      OneItem(c, s, From(c, s, schedule), schedule + Items(n - 1), n - 1);
      assert schedule + Items(n) == schedule + Items(n - 1) + [OfWorker(Mark)] + [OfWorker(WorkAction.Index)];
    }
  }

  /** A pass over `n` entries, from reading the checkpoint to moving it. */
  function WholePass(n: nat): seq<Action> {
    [OfWorker(ReadCheckpoint)] + [OfWorker(ReadLog)] + Items(n) + [OfWorker(Advance)]
  }

  /** A pass that is run to its end does what the worker's `Tick` does, and leaves the rest alone. */
  lemma PassRunsToEnd(c: Config, s: State)
    requires c.Valid() && Inv(c, s) && s.worker.pass == Idle
    ensures var t := From(c, s, WholePass(|Newer(s.log, s.worker.lastId, c.batch)|));
            && t.worker.pass == Idle && t.worker.lastId == TickTo(|s.log|, s.worker.lastId, c.batch)
            && (t.log, t.front, t.kb) == (s.log, s.front, s.kb)
  {
    var entries, begun := Newer(s.log, s.worker.lastId, c.batch), [OfWorker(ReadCheckpoint)] + [OfWorker(ReadLog)];
    PassBegins(c, s);
    hide *;
    PassEnds(c, s, begun, entries);
  }

  lemma PassEnds(c: Config, s: State, begun: seq<Action>, entries: Log)
    requires From(c, s, begun)
          == s.(worker := s.worker.(pass := if entries == [] then Idle else Working(entries, 0, false)))
    requires entries != [] ==> entries[|entries| - 1].id == s.worker.lastId + |entries|
    ensures var t := From(c, s, begun + Items(|entries|) + [OfWorker(Advance)]);
            && t.worker.pass == Idle && t.worker.lastId == s.worker.lastId + |entries|
            && (t.log, t.front, t.kb) == (s.log, s.front, s.kb)
  {
    hide From;
    if entries == [] {
      assert begun + Items(0) == begun;
    } else {
      ItemsProgress(c, s, begun, |entries|);
    }
    hide Items;
    OneMore(c, s, begun + Items(|entries|), OfWorker(Advance));
  }

  lemma PassBegins(c: Config, s: State)
    requires c.Valid() && Inv(c, s) && s.worker.pass == Idle
    ensures var entries := Newer(s.log, s.worker.lastId, c.batch);
            && From(c, s, [OfWorker(ReadCheckpoint)] + [OfWorker(ReadLog)])
               == s.(worker := s.worker.(pass := if entries == [] then Idle else Working(entries, 0, false)))
            && s.worker.lastId + |entries| == TickTo(|s.log|, s.worker.lastId, c.batch)
            && (entries != [] ==> entries[|entries| - 1].id == s.worker.lastId + |entries|)
  {
    var start := [OfWorker(ReadCheckpoint)];
    IdleBound(c, s);
    hide Inv;
    WhatIsRead(s.log, s.worker.lastId, c.batch);
    hide Newer;
    assert [] + start == start && From(c, s, []) == s;
    OneMore(c, s, [], OfWorker(ReadCheckpoint));
    OneMore(c, s, start, OfWorker(ReadLog));
    hide From;
  }

  lemma WhatIsRead(log: Log, lastId: nat, batch: int)
    requires Numbered(log) && lastId <= |log| && batch > 0
    ensures var entries := Newer(log, lastId, batch);
            && lastId + |entries| == TickTo(|log|, lastId, batch)
            && (entries != [] ==> entries[|entries| - 1].id == lastId + |entries|)
  {
    NewerContinues(log, lastId, batch);
    hide Newer;
    var entries := Newer(log, lastId, batch);
    var n := |entries|;
    assert n > 0 ==> entries[n - 1] == log[lastId..][n - 1] == log[lastId + n - 1];
  }

  lemma IdleBound(c: Config, s: State)
    requires Inv(c, s) && s.worker.pass == Idle
    ensures Numbered(s.log) && s.worker.lastId <= |s.log|
  {
  }

  /** A worker that is given its turns works off the log. */
  lemma {:induction false} WorkerCatchesUp(c: Config, s: State) returns (after: seq<Action>)
    requires c.Valid() && Inv(c, s) && s.worker.pass == Idle
    ensures var t := From(c, s, after);
            && t.worker.pass == Idle && t.worker.lastId == |t.log|
            && (t.log, t.front, t.kb) == (s.log, s.front, s.kb)
    decreases |s.log| - s.worker.lastId
  {
    IdleBound(c, s);
    if s.worker.lastId == |s.log| {
      NoActions(c, s);
      after := [];
    } else {
      var pass := WholePass(|Newer(s.log, s.worker.lastId, c.batch)|);
      PassRunsToEnd(c, s);
      RunKeeps(c, s, pass);
      hide Inv;
      hide From;
      hide WholePass;
      after := WorkerCatchesUp(c, From(c, s, pass));
      Composed(c, s, pass, after);
      after := pass + after;
    }
  }

  /** Receiving `n` entries, flushing whenever the writer wants to. */
  function Receives(n: nat): seq<Action> {
    if n == 0 then [] else Receives(n - 1) + [OfFront(Receive)] + [OfFront(Flush)]
  }

  /** A writer that is not leaving and takes one entry, and writes the batch when it is full. */
  lemma OneReceived(c: Config, f: Front, log: Log)
    requires (f.writer == Looping || f.writer == Draining) && f.ch != []
    ensures var r := FrontStep(c, f, log, Receive);
            var t := FrontStep(c, r.0, r.1, Flush).0;
            t.writer == f.writer && t.closed == f.closed && t.ch == f.ch[1..] && t.accepted == f.accepted
  {
    hide Persist;
  }

  lemma OneReceivedNext(c: Config, s: State)
    requires (s.front.writer == Looping || s.front.writer == Draining) && s.front.ch != []
    ensures var t := Next(c, Next(c, s, OfFront(Receive)), OfFront(Flush)).front;
            && t.writer == s.front.writer && t.closed == s.front.closed
            && t.ch == s.front.ch[1..] && t.accepted == s.front.accepted
  {
    hide FrontStep;
    OneReceived(c, s.front, s.log);
  }

  lemma {:induction false} ReceivesProgress(c: Config, s: State, n: nat)
    requires (s.front.writer == Looping || s.front.writer == Draining) && n <= |s.front.ch|
    ensures var t := From(c, s, Receives(n)).front;
            t.writer == s.front.writer && t.closed == s.front.closed
            && t.ch == s.front.ch[n..] && t.accepted == s.front.accepted
  {
    assert Receives(n) == if n == 0 then [] else Receives(n - 1) + [OfFront(Receive)] + [OfFront(Flush)];
    hide *;
    if n == 0 {
      NoActions(c, s);
    } else {
      ReceivesProgress(c, s, n - 1);
      OneMore(c, s, Receives(n - 1), OfFront(Receive));
      OneMore(c, s, Receives(n - 1) + [OfFront(Receive)], OfFront(Flush));
      OneReceivedNext(c, From(c, s, Receives(n - 1)));
      assert s.front.ch[n - 1..][1..] == s.front.ch[n..];
    }
  }

  /** A running writer that is given its turns stores everything that was accepted. */
  lemma WriterCatchesUp(c: Config, s: State)
    requires c.Valid() && Inv(c, s) && s.front.writer == Looping
    ensures var t := From(c, s, Receives(|s.front.ch|) + [OfFront(TimeOut)] + [OfFront(Flush)]);
            t.front.writer == Looping && t.front.accepted == s.front.accepted && Contents(t.log) == s.front.accepted
  {
    var all := Receives(|s.front.ch|);
    var t := From(c, s, all + [OfFront(TimeOut)] + [OfFront(Flush)]);
    RunKeeps(c, s, all + [OfFront(TimeOut)] + [OfFront(Flush)]);
    ReceivesProgress(c, s, |s.front.ch|);
    OneMore(c, s, all, OfFront(TimeOut));
    OneMore(c, s, all + [OfFront(TimeOut)], OfFront(Flush));
    hide From;
    hide FrontStep;
    hide Inv;
    TickWrites(c, From(c, s, all).front, From(c, s, all).log);
    AllStored(c, t);
  }

  lemma TickWrites(c: Config, f: Front, log: Log)
    requires f.writer == Looping
    ensures var r := FrontStep(c, f, log, TimeOut);
            FrontStep(c, r.0, r.1, Flush).0 == f.(batch := [])
  {
    hide Persist;
  }

  lemma AllStored(c: Config, s: State)
    requires Inv(c, s) && s.front.ch == [] && s.front.batch == []
    ensures Contents(s.log) == s.front.accepted
  {
    assert Contents(s.log) + [] + [] == Contents(s.log);
  }

  /** One entry published, received and written, from a writer at rest before an empty channel. */
  function StoreOne(tenant: string, raw: LogEntry): seq<Action> {
    [] + [OfFront(Publish(tenant, 1, raw))] + [OfFront(Receive)] + [OfFront(TimeOut)] + [OfFront(Flush)]
  }

  predicate AtRest(f: Front) {
    f.writer == Looping && !f.closed && f.ch == [] && f.batch == []
  }

  lemma OneStored(c: Config, f: Front, log: Log, tenant: string, raw: LogEntry)
    requires c.Valid() && c.cap > 0 && AtRest(f) && raw.Validates()
    ensures var p := FrontStep(c, f, log, Publish(tenant, 1, raw));
            var q := FrontStep(c, p.0, p.1, Receive);
            var r := FrontStep(c, q.0, q.1, TimeOut);
            var s := FrontStep(c, r.0, r.1, Flush);
            AtRest(s.0) && s.1 == Persist(log, [Prepared(c.rules, tenant, 1, raw)])
  {
    PreparedSafe(c.rules, tenant, 1, raw);
    hide Prepared;
    hide Persist;
  }

  lemma StoresOne(c: Config, s: State, tenant: string, raw: LogEntry)
    requires c.Valid() && c.cap > 0 && AtRest(s.front) && raw.Validates()
    ensures var t := From(c, s, StoreOne(tenant, raw));
            && AtRest(t.front) && t.log == Persist(s.log, [Prepared(c.rules, tenant, 1, raw)])
            && (t.worker, t.kb, t.ix) == (s.worker, s.kb, s.ix)
  {
    var one := [] + [OfFront(Publish(tenant, 1, raw))];
    var two := one + [OfFront(Receive)];
    var three := two + [OfFront(TimeOut)];
    NoActions(c, s);
    OneMore(c, s, [], OfFront(Publish(tenant, 1, raw)));
    OneMore(c, s, one, OfFront(Receive));
    OneMore(c, s, two, OfFront(TimeOut));
    OneMore(c, s, three, OfFront(Flush));
    OneStored(c, s.front, s.log, tenant, raw);
    hide From;
    hide FrontStep;
    hide Persist;
    hide Prepared;
  }

  // ----- shutdown -----

  /** Once the writer has decided to leave, what it will have stored is settled. */
  lemma {:induction false} LeavingSettles(c: Config, s: State, after: seq<Action>)
    requires s.front.writer == Flushing(Exited)
    ensures var t := From(c, s, after);
            || (t.front.writer == Flushing(Exited) && t.front.batch == s.front.batch && t.log == s.log)
            || (t.front.writer == Exited && t.log == Persist(s.log, s.front.batch))
  {
    if after != [] {
      var n := |after| - 1;
      LeavingSettles(c, s, after[..n]);
      var u := From(c, s, after[..n]);
      assert From(c, s, after) == Next(c, u, after[n]);
      hide From;
      hide Persist;
      hide FrontStep;
      hide WorkStep;
      hide KbStep;
      if after[n].OfFront? {
        StaysSettled(c, u.front, u.log, after[n].front);
      }
    }
  }

  lemma StaysSettled(c: Config, f: Front, log: Log, a: FrontAction)
    requires f.writer == Flushing(Exited) || f.writer == Exited
    ensures var r := FrontStep(c, f, log, a);
            if f.writer == Flushing(Exited) && a == Flush then r.0.writer == Exited && r.1 == Persist(log, f.batch)
            else r.0.writer == f.writer && r.0.batch == f.batch && r.1 == log
  {
    hide Persist;
    hide Prepared;
  }

  /** It is everything accepted by then that is not still in the channel. */
  lemma StoredOnLeaving(c: Config, s: State, after: seq<Action>)
    requires Inv(c, s) && s.front.writer == Flushing(Exited)
    ensures var t := From(c, s, after);
            t.front.writer == Exited ==> Contents(t.log) + s.front.ch == s.front.accepted
  {
    LeavingSettles(c, s, after);
    AllBatchRedacted(c, s);
    PersistContents(s.log, s.front.batch);
  }

  lemma AllBatchRedacted(c: Config, s: State)
    requires Inv(c, s)
    ensures AllRedacted(s.front.batch)
  {
    forall i | 0 <= i < |s.front.batch|
      ensures s.front.batch[i].redacted
    {
      assert s.front.accepted[|s.log| + i] == s.front.batch[i];
    }
  }

  /**
    In every run: at exit the writer has stored exactly what had been accepted when it
    decided to leave, and nothing that was accepted later.
    */
  lemma StoredIsAcceptedBeforeLeaving(c: Config, s: State, decision: Action, after: seq<Action>)
    requires c.Valid() && Inv(c, s)
    requires !Leaving(s.front.writer) && Leaving(Next(c, s, decision).front.writer)
    ensures var t := From(c, Next(c, s, decision), after);
            t.front.writer == Exited ==> Contents(t.log) == s.front.accepted
  {
    var u, t := Next(c, s, decision), From(c, Next(c, s, decision), after);
    StepKeeps(c, s, decision);
    DecidesOnEmpty(c, s, decision);
    StoredOnLeaving(c, u, after);
    assert Contents(t.log) + [] == Contents(t.log);
  }

  /** The writer decides to leave only when it has found the channel empty. */
  lemma DecidesOnEmpty(c: Config, s: State, decision: Action)
    requires FrontInv(c, s.front, s.log)
    requires !Leaving(s.front.writer) && Leaving(Next(c, s, decision).front.writer)
    ensures var u := Next(c, s, decision).front;
            u.writer == Flushing(Exited) && u.ch == [] && u.accepted == s.front.accepted
  {
    hide Persist;
    hide Prepared;
  }

  /** Ends a flush that is under way, cancels, and lets the writer see that it is cancelled. */
  lemma BeginsToDrain(c: Config, s: State) returns (after: seq<Action>)
    requires FrontInv(c, s.front, s.log)
    ensures var t := From(c, s, after).front;
            t.closed == s.front.closed && (t.writer == Draining || t.writer == Exited)
  {
    hide Persist;
    var one := [] + [OfFront(Flush)];
    var two := one + [OfFront(Cancel)];
    after := two + [OfFront(Drain)];
    assert From(c, s, []) == s;
    OneMore(c, s, [], OfFront(Flush));
    OneMore(c, s, one, OfFront(Cancel));
    OneMore(c, s, two, OfFront(Drain));
    hide From;
  }

  /** A draining writer takes what there is, finds the channel empty, and leaves. */
  lemma LeavesOnEmpty(c: Config, s: State) returns (after: seq<Action>)
    requires s.front.writer == Draining && !s.front.closed
    ensures var t := From(c, s, after).front; !t.closed && t.writer == Exited
  {
    hide Persist;
    var all := Receives(|s.front.ch|);
    ReceivesProgress(c, s, |s.front.ch|);
    OneMore(c, s, all, OfFront(GiveUp));
    OneMore(c, s, all + [OfFront(GiveUp)], OfFront(Flush));
    after := all + [OfFront(GiveUp)] + [OfFront(Flush)];
    hide From;
  }

  /** An open channel can be left behind by the writer. */
  lemma CanLeaveOpen(c: Config, s: State) returns (after: seq<Action>)
    requires c.Valid() && Inv(c, s) && !s.front.closed
    ensures var t := From(c, s, after).front; !t.closed && t.writer == Exited
  {
    after := BeginsToDrain(c, s);
    var t := From(c, s, after);
    if t.front.writer == Draining {
      var more := LeavesOnEmpty(c, t);
      Composed(c, s, after, more);
      after := after + more;
    }
  }

  const ANY_ENTRY := LogEntry("", 0, "s", "", "", "m", map[], false)

  /** Then one more entry is accepted and never stored. */
  lemma CanLose(c: Config, s: State) returns (after: seq<Action>)
    requires c.Valid() && c.cap > 0 && Inv(c, s) && !ClosedInTime(s.front)
    ensures var t := From(c, s, after); t.front.writer == Exited && Contents(t.log) != t.front.accepted
  {
    if s.front.closed {
      after := [] + [OfFront(Flush)];
      assert From(c, s, []) == s;
      OneMore(c, s, [], OfFront(Flush));
    } else {
      var open := CanLeaveOpen(c, s);
      after := open + [OfFront(Publish("t", 1, ANY_ENTRY))];
      OneMore(c, s, open, OfFront(Publish("t", 1, ANY_ENTRY)));
    }
    RunKeeps(c, s, after);
    AtExit(c, From(c, s, after));
    hide Prepared;
    hide Persist;
  }

  /** However the run goes on from `s`, an exit of the writer finds everything accepted stored. */
  ghost predicate ShutdownLosesNothing(c: Config, s: State) {
    forall after :: From(c, s, after).front.writer == Exited ==>
      Contents(From(c, s, after).log) == From(c, s, after).front.accepted
  }

  /**
    From any state of any run, shutdown is bound to lose nothing exactly when the channel is
    closed already, and was when the writer decided to leave, if it has.
    */
  lemma StoredInFullIff(c: Config, s: State)
    requires c.Valid() && c.cap > 0 && Inv(c, s)
    ensures ShutdownLosesNothing(c, s) <==> ClosedInTime(s.front)
  {
    if ClosedInTime(s.front) {
      forall after | From(c, s, after).front.writer == Exited
        ensures Contents(From(c, s, after).log) == From(c, s, after).front.accepted
      {
        CloseBeforeExit(c, s, after);
      }
    } else {
      var after := CanLose(c, s);
    }
  }

  /** Cancellation, one look at an empty channel, the last flush; then a publisher that is still running. */
  function EarlyExit(): seq<Action> {
    [] + [OfFront(Cancel)] + [OfFront(Drain)] + [OfFront(GiveUp)] + [OfFront(Flush)]
  }

  /**
    The order in which `main` shuts down: the writer leaves on cancellation as soon as the
    channel is empty for a moment, while publishers are still accepted.
    */
  lemma ExitBeforeClose(c: Config, raw: LogEntry)
    requires c.cap > 0 && raw.Validates()
    ensures var s := Reach(c, EarlyExit() + [OfFront(Publish("t", 1, raw))]);
            s.front.writer == Exited && |s.front.accepted| == 1 && s.log == []
  {
    var s1 := [] + [OfFront(Cancel)];
    var s2 := s1 + [OfFront(Drain)];
    var s3 := s2 + [OfFront(GiveUp)];
    NoActions(c, INITIAL);
    FromFront(c, [], Cancel);
    FromFront(c, s1, Drain);
    FromFront(c, s2, GiveUp);
    FromFront(c, s3, Flush);
    FromFront(c, s3 + [OfFront(Flush)], Publish("t", 1, raw));
    ExitSteps(c, raw);
    hide From;
    hide FrontStep;
  }

  lemma ExitSteps(c: Config, raw: LogEntry)
    requires c.cap > 0 && raw.Validates()
    ensures var p := FrontStep(c, INITIAL.front, INITIAL.log, Cancel);
            var q := FrontStep(c, p.0, p.1, Drain);
            var r := FrontStep(c, q.0, q.1, GiveUp);
            var s := FrontStep(c, r.0, r.1, Flush);
            var t := FrontStep(c, s.0, s.1, Publish("t", 1, raw));
            t.0.writer == Exited && |t.0.accepted| == 1 && t.1 == []
  {
    assert Persist([], []) == [];
    hide Prepared;
    hide Persist;
  }

  /** A schedule with one action of the front part more. */
  lemma FromFront(c: Config, schedule: seq<Action>, a: FrontAction)
    ensures var s, r := Reach(c, schedule), Reach(c, schedule + [OfFront(a)]);
            (r.front, r.log) == FrontStep(c, s.front, s.log, a)
  {
    assert (schedule + [OfFront(a)])[..|schedule|] == schedule;
  }
}
