# SentinelLog, verified model

SentinelLog takes in log entries for several tenants, redacts them, buffers them, writes
them in batches to an append-only store, keeps a deduplicated vector index of them up to
date by a checkpointed worker, watches error counts for anomalies, and answers structured,
semantic and "why did it fail" queries for one tenant at a time, with every query on a
hash-chained audit log. This project models that behaviour in Dafny and proves what the
parts promise.

| file | component |
|---|---|
| `Text.dfy`, `Filters.dfy`, `Permutations.dfy`, `Sums.dfy`, `Reals.dfy` | byte strings and decimal numerals, filtering, reordering, sums over sets, real arithmetic |
| `Model.dfy` | log entries, content hash input, references |
| `Redaction.dfy`, `Luhn.dfy` | entropy redaction, the card number check |
| `Ingest.dfy`, `Writer.dfy` | handler loop, bounded buffer, batch writer |
| `LogStore.dfy` | the append-only store and its reads |
| `Embedding.dfy`, `VectorIndex.dfy`, `KnowledgeBase.dfy` | feature hashing, the partitioned index, documents |
| `EmbedWorker.dfy` | the worker that keeps the index up to date |
| `Pipeline.dfy` | all of the above as one transition system, with every interleaving |
| `Query.dfy`, `Isolation.dfy` | queries, resolvability, grounding; tenant isolation over two runs |
| `RateLimit.dfy`, `Anomaly.dfy`, `AnomalyWorker.dfy`, `Metrics.dfy` | token bucket, moving baseline, error sampling, histogram |
| `Audit.dfy` | the hash chain |

## How the program is modelled

Objects that update their fields are classes (store, index, knowledge base, workers, buffer,
writer, detector, limiter, histogram, audit log, query service); their methods are proved
against functions on values, and the main results are lemmas about those functions.
`Pipeline.dfy` uses the same functions in a step relation in which the writer's select, a
worker's pass and the addition of a document are several actions each, so that a schedule
(a sequence of actions) is any interleaving of publishers, writer, worker and documents.

Strings are sequences of bytes. All separators and token characters of the program are
ASCII, so splitting by bytes and by runes agree. Clock readings are inputs. IDs and counters
are unbounded; results that print and parse IDs assume fewer than 2^64 stored entries.
Floating-point numbers are exact reals. These are parameters: SHA-256 (with the hypotheses "no collisions"
and "no `|` in its hexadecimal output" only where they are used), the 32-bit FNV hash, the
square root (by its defining equation), the library sort (any function from scores to a
descending order of positions), case folding and word splitting, the regular expressions,
and "entropy at or above the threshold" as a predicate on strings.

## What holds only under a condition

Two comments promise more than the code does:

* Graceful shutdown ("nothing sitting in the buffer is lost", `cmd/ingest/main.go:18-19`):
  from any state of any run, nothing can be lost any more exactly when the channel is closed
  and, if the writer is leaving, empty (`Pipeline.StoredInFullIff`).
  `main` cancels the context before it closes the channel, and the writer leaves when the
  channel is empty for a moment (`Pipeline.ExitBeforeClose`). What the writer has stored at
  its exit is exactly what had been accepted when it decided to leave
  (`Pipeline.StoredIsAcceptedBeforeLeaving`).
* Tamper evidence (`internal/audit/audit.go:3-7`): removing records from the middle is always
  noticed (`Audit.RemovalNoticed`). An alteration of a record before the last is always
  noticed exactly when its tenant, actor, action and resource contain no `|`; any other record
  can be regrouped into different fields with the same hash (`Audit.TamperEvidentIff`). So a
  head that is kept elsewhere pins down the whole chain exactly when no record of it has a `|`
  in those fields (`Audit.OnlyChainIff`).

Two properties no comment states have exact conditions as well:

* A repeated value does not alert again (`internal/anomaly/anomaly.go:76-106`): on counts,
  which is all the detector is fed (`AnomalyWorker.FedCounts`), the k-th and later repeats are
  quiet in every series exactly when zThres^2 * (1 - w) > w and w <= 1/2 or w * (1 - w) is
  above the square of the guard of 1e-9, with w = (1 - alpha)^k
  (`Anomaly.CountRepeatsQuietIff`). With the deployed alpha 0.25 and threshold 3 no repeat ever
  alerts (`Anomaly.DeployedRepeats`, `AnomalyWorker.EqualCountQuiet`). Fed with arbitrary
  numbers the detector needs w <= 1/2 (`Anomaly.RepeatsQuietIff`).
* One tenant does not affect another's index and baselines (`internal/model/stored.go:23-32`,
  `internal/anomaly/anomaly.go:64`, where names are joined by NUL): what one logs can keep
  another's entries out of the index (`Isolation.IndexedAloneIff`), and two tenants' series can
  share a baseline (`AnomalyWorker.ShareKeyIff`), exactly when one of the two names is the
  other followed by a NUL and anything more.

## Model

| member | source | states |
|---|---|---|
| Pipeline.StepKeeps | internal/worker/embedworker.go:99-160 | every action of every part keeps the invariant of the whole system, and stored entries and filed documents stay |
| Pipeline.ReachKeeps | cmd/ingest/main.go:123-125 | the invariant holds after every schedule |
| Pipeline.IndexDeterminedByLog | internal/worker/embedworker.go:99-160 | after every schedule, even in the middle of a pass, each tenant's log items are exactly what the processed prefix of the log determines, and the hashes seen are those of that prefix |
| Pipeline.ScheduleIrrelevant | internal/worker/embedworker.go:5-16 | two runs with different schedules and batch sizes that stored and processed the same entries agree on every tenant's log items |
| Pipeline.GrowthKeeps | internal/worker/embedworker.go:104-125 | writes between the steps of a pass do not disturb it |
| Pipeline.NothingLostInside | internal/writer/writer.go:59-104 | stored ++ batch ++ channel is the accepted sequence after every schedule; the batch is below its size at the loop head and empty after exit; so neither guard drops anything |
| Pipeline.StoredInFullIff | internal/writer/writer.go:59-91 | from every state, every continuation in which the writer exits has stored everything accepted, exactly when the channel is closed and, if the writer is leaving already, empty |
| Pipeline.CloseBeforeExit | internal/writer/writer.go:65-83 | a channel closed in time is stored in full at exit, whatever happens in between |
| Pipeline.StoredIsAcceptedBeforeLeaving | internal/writer/writer.go:61-78 | at its exit the writer has stored exactly the entries accepted before it decided to leave, and none accepted later |
| Pipeline.StoredOnLeaving | internal/writer/writer.go:66-77 | once it is leaving, what it will have stored is what was accepted by then and is not still in the channel |
| Pipeline.ExitBeforeClose | cmd/ingest/main.go:151-159 | a schedule in which the writer leaves on cancellation and an entry accepted afterwards is never stored |
| Pipeline.PassRunsToEnd | internal/worker/embedworker.go:99-135 | a pass taken to its end in single steps moves the checkpoint to min(n, checkpoint + batch) like the worker's own loop, and leaves log, writer and documents alone |
| Pipeline.WorkerCatchesUp | internal/worker/embedworker.go:99-135 | from any state between passes, a worker given its turns works off the whole log, and leaves log, writer and documents alone |
| Pipeline.WriterCatchesUp | internal/writer/writer.go:59-91 | a running writer given its turns and a tick stores everything accepted |
| Pipeline.KbIndexKeeps | internal/kb/kb.go:53-68 | numbering, filing and indexing a document, interleaved with anything, keeps the log's part of the index; every other item is that of a filed document of its tenant, and every filed document has its item unless it is still to be indexed |
| EmbedWorker.LogItemsAreFirsts | internal/worker/embedworker.go:137-160 | the log items of a tenant are, in log order, exactly its entries whose content hash no earlier entry has |
| EmbedWorker.Worker.constructor | internal/worker/embedworker.go:65-76 | a new worker is in step with the empty index; a batch of zero or less becomes 200 |
| EmbedWorker.Worker.Process | internal/worker/embedworker.go:137-160 | indexes an entry exactly when its hash is new, records the hash, and never fails, so the dead-letter queue stays empty; what is indexed is pinned by `Query.HitsDescribed` |
| EmbedWorker.Worker.Tick | internal/worker/embedworker.go:99-135 | keeps index and hashes equal to what the log up to the checkpoint determines, and moves the checkpoint to min(n, checkpoint + batch) |
| EmbedWorker.Worker.Lag | internal/worker/embedworker.go:173-183 | min(1000000, entries behind the checkpoint) |
| EmbedWorker.QuietTicks | internal/worker/embedworker.go:120-130 | after k passes over n entries the checkpoint is min(n, k * batch) |
| EmbedWorker.UpsertIndexed | internal/worker/embedworker.go:148-159 | indexing the next entry with a new hash is never swallowed by the index's own duplicate check, and takes every tenant's items one entry further |
| EmbedWorker.DocIndexed | internal/kb/kb.go:60-66 | documents never disturb the log's part of the index |
| Isolation.StructuredIsolation | internal/query/service.go:37-46 | two logs with the same projection onto a tenant answer its structured searches alike up to an order-preserving renaming of IDs |
| Isolation.HitsIsolation | internal/query/service.go:57-78 | two runs of any schedules with the same projection onto a tenant, both caught up, with the tenant's documents in the same pattern among its items: the same hits, scores and texts in the same order, of the same entries and documents |
| Isolation.SemanticIsolation | internal/query/service.go:57-78 | for a tenant without documents: the same texts and scores in the same order, up to an order-preserving renaming of IDs in the references |
| Isolation.ScoresIsolation | internal/query/service.go:57-78 | a tenant with documents, the same in both runs under any numbers: the same scores in the same order, and questions refused in both runs or in neither, citing equally many sources |
| Isolation.LogItemsOfOwn | internal/model/stored.go:20-32 | a tenant's log items depend on its own entries only, given collision-free hashes and no tenant whose name is another's followed by NUL |
| Isolation.IndexedAloneIff | internal/model/stored.go:23-32 | in every run in which only two tenants log, the index holds for one what its own processed entries alone would make of it, exactly when neither name is the other followed by NUL; NUL-free names never are |
| Query.EveryHitResolves | internal/query/service.go:66-102 | every hit in a reachable state resolves to a non-empty text, the same one after any further actions |
| Query.SearchDropsNothing | internal/query/service.go:69-77 | a semantic search in a reachable state drops no hit |
| Query.HitsDescribed | internal/worker/embedworker.go:148-159 | in every reachable state every hit shown is that of one of the tenant's entries, scored by its message and showing it, or of one of its documents, scored by title and content and showing the title and the first 240 bytes |
| Query.RefusesExactly | internal/query/rag.go:58-90 | the answer is refused exactly when no item of the tenant's partition reaches the threshold, and otherwise cites, in order, exactly the top-k hits that reach it, which come first |
| Query.Service.StructuredSearch | internal/query/service.go:39-46 | searches the caller's tenant whatever the query says, and records the query; without the capability nothing is read or recorded |
| Query.Service.SemanticSearch | internal/query/service.go:60-78 | the tenant's top hits with their texts, unresolvable ones dropped; recorded |
| Query.Service.ResolveSnippet | internal/query/service.go:82-102 | the text behind a reference within the tenant, or nothing |
| Query.Service.WhyDidFail | internal/query/rag.go:47-91 | the grounded answer to the semantic search; the question is recorded before the search is, and what each record says |
| Query.RelevantIsPrefix | internal/query/rag.go:59-64 | of hits in descending order the relevant ones form a prefix |
| Redaction.EntropyComplete | internal/redaction/redactor.go:123-144 | after the entropy pass no field is long enough, token-like and above the threshold; separators and pieces are kept |
| Redaction.EntropyFieldCount | internal/redaction/redactor.go:123-144 | the number of fields is kept |
| Redaction.EntropyFixpoint | internal/redaction/redactor.go:123-144 | a second pass changes nothing and counts nothing |
| Redaction.SecretTextGoneIff | internal/redaction/redactor.go:131-142 | the text of a secret field is nowhere left in the output, not even inside other fields, for all inputs exactly when the minimum length exceeds 8 |
| Redaction.InnocentPieceKept | internal/redaction/redactor.go:131-142 | a piece in which no secret field occurs is kept as it is |
| Redaction.ScanPieces | internal/redaction/redactor.go:131-142 | the global replacements act on each piece separately |
| Redaction.RedactHighEntropyTokens | internal/redaction/redactor.go:123-144 | the loop computes the pass on which these results are proved, and adds its count |
| Redaction.LooksLikeToken | internal/redaction/redactor.go:148-160 | only characters of encoded secrets occur |
| Redaction.NothingRedactedIff | internal/redaction/redactor.go:96-118 | a text is left alone and counts nothing exactly when no pattern matches in it and, with the entropy pass, no field of it is secret |
| Redaction.MatchesGone | internal/redaction/redactor.go:99-110 | of a pattern that leaves no match of its own and whose matches nothing later makes, the redacted text has none |
| Redaction.EntryMatchesGone | internal/redaction/redactor.go:66-89 | nor has the message or any text attribute of a redacted entry, allow-listed ones included |
| Redaction.EntropyCount | internal/redaction/redactor.go:123-144 | what the entropy pass counts is the number of secret fields |
| Redaction.TokenChars | internal/redaction/redactor.go:148-160 | the characters of encoded secrets, listed |
| Redaction.SeparatorChars | internal/redaction/redactor.go:124-127 | the separators, listed |
| Redaction.RedactStringWithEntropy | internal/redaction/redactor.go:96-118 | the pattern passes in order, then the entropy pass when asked for |
| Redaction.Redact | internal/redaction/redactor.go:66-89 | message and text attributes are rewritten and counted whatever the order of the attributes; the entry is marked |
| Redaction.RedactedEntryClean | internal/redaction/redactor.go:66-89 | afterwards neither the message nor any text attribute outside the allow-list has a secret field, and a message does not vanish |
| Luhn.LuhnValid | internal/redaction/redactor.go:198-213 | the loop computes the weighted sum modulo ten |
| Luhn.DoubledIsDigitSum | internal/redaction/redactor.go:204-207 | a doubled digit counts with the digit sum of twice the digit |
| Luhn.ZerosValid | internal/redaction/redactor.go:198-213 | numbers of zeros only are valid |
| Luhn.LooksLikeCard | internal/redaction/redactor.go:185-196 | 13 to 19 digits that pass the check |
| Luhn.SingleDigitChange | internal/redaction/redactor.go:198-213 | every change of one digit of a valid number is rejected |
| Luhn.AdjacentSwap | internal/redaction/redactor.go:198-213 | swapping neighbours is missed only for equal digits and for 0 and 9 |
| Luhn.ValidPair | internal/redaction/redactor.go:198-213 | the digit before the check digit counts with the digit sum of twice it |
| Luhn.DigitOf | internal/redaction/redactor.go:187-191 | what counts of a character are decimal digits, with their value |
| Luhn.OneCheckDigit | internal/redaction/redactor.go:198-213 | each prefix has exactly one valid check digit |
| Luhn.SeparatorsIgnored | internal/redaction/redactor.go:185-196 | text without digits may stand anywhere in the number |
| Audit.AnchoredHead | internal/audit/audit.go:66-101 | two chains that verify and end in the same hash are the same chain in length and in every field, for bar-free tenant, actor and action |
| Audit.AnchoredTexts | internal/audit/audit.go:66-101 | whatever the strings, two chains that verify and end in the same hash agree in length and record by record in hashed text, number, time and hashes |
| Audit.OnlyChainIff | internal/audit/audit.go:66-101 | against every other chain whatsoever, the head determines the chain exactly when no record of it has a bar in its four strings |
| Audit.RemovalNoticed | internal/audit/audit.go:3-6 | removing any stretch of records before the last is noticed, whatever the strings |
| Audit.TamperEvidentIff | internal/audit/audit.go:66-101 | every alteration of a record before the last is noticed exactly when its four strings contain no bar |
| Audit.EditVerifiesIff | internal/audit/audit.go:66-80 | an altered record before the last passes exactly when text and both hashes are unchanged |
| Audit.SerializeInjective | internal/audit/audit.go:95-99 | among records with bar-free tenant, actor and action the hashed text determines every field, whatever the resource |
| Audit.SerializeJoins | internal/audit/audit.go:95-99 | the hashed text is number, tenant, actor, action, resource, time and predecessor's hash, joined by bars |
| Audit.OneReadingIff | internal/audit/audit.go:95-99 | a record's text has one reading exactly when none of its four strings contains a bar |
| Audit.HeadIsNotGenesis | internal/audit/audit.go:43-46 | no record hashes to the genesis value |
| Audit.PrefixVerifies | internal/audit/audit.go:9-12 | a chain without its tail still verifies |
| Audit.Log.Append | internal/audit/audit.go:50-62 | links one record to the head and keeps the chain verifying, numbered from one |
| Audit.Log.Head | internal/audit/audit.go:83-87 | the hash of the last record, or the genesis value |
| Audit.Log.Verify | internal/audit/audit.go:66-80 | on any records at all, true exactly when the chain is intact, otherwise the number of the first record that is not |
| RateLimit.RateBoundIff | internal/ratelimit/tokenbucket.go:41-67 | in runs of all keys, with clock readings in any order, every window of a key in which its bucket is kept allows at most burst + rate * elapsed calls up to an allowed one, exactly when burst is at least one |
| RateLimit.RefusedIff | internal/ratelimit/tokenbucket.go:41-67 | in runs of all keys, with clock readings in any order, a call is refused exactly when since some earlier call of the key, its bucket kept, more than burst + rate * elapsed - 1 calls were allowed |
| RateLimit.BoundedAcrossSweepsIff | internal/ratelimit/tokenbucket.go:41-80 | with time that does not run backwards the bound holds in every window across any sweeps, exactly when burst >= 1 and ttl * rate >= burst |
| RateLimit.PotentialFalls | internal/ratelimit/tokenbucket.go:54-65 | tokens - rate * lastSeen never rises and drops by at least one with each allowed call |
| RateLimit.SweepingUnobservableIff | internal/ratelimit/tokenbucket.go:41-80 | in runs of all keys in which time does not run backwards, no schedule of sweeps can be told from any key's answers exactly when burst >= 1 and ttl * rate >= burst |
| RateLimit.KeyAlone | internal/ratelimit/tokenbucket.go:41-80 | a key's bucket and answers do not depend on the other keys |
| RateLimit.PacedNeverRefused | internal/ratelimit/tokenbucket.go:54-66 | a key that calls no faster than once per 1/rate is never refused, whatever other keys do and whenever is swept |
| RateLimit.Limiter.Allow | internal/ratelimit/tokenbucket.go:41-67 | one step of the run, for this key only; `RateLimit.RefusedIff` says when the answer is no |
| RateLimit.Limiter.Sweep | internal/ratelimit/tokenbucket.go:71-80 | removes exactly the buckets idle for longer than the time to live |
| Anomaly.Detector.constructor | internal/anomaly/anomaly.go:48-59 | a parameter out of range is replaced by its default of 0.2, 3.0 or 20, a valid one kept |
| Anomaly.Detector.Observe | internal/anomaly/anomaly.go:63-107 | scores against the baseline as it was, then moves it; one series only |
| Anomaly.AlertsIff | internal/anomaly/anomaly.go:76-106 | in every series a sample alerts exactly when the series is warm and, by the weighted mean and variance of the samples before it, it is at least the threshold number of standard deviations away on either side, or beyond the guard where there is hardly any spread |
| Anomaly.ScoreMeans | internal/anomaly/anomaly.go:77-91 | the score has the sign of the deviation, and its square times the variance is the squared deviation; without spread it is one above the threshold, or zero |
| Anomaly.MeanIsAverage | internal/anomaly/anomaly.go:93-95 | after any series the mean is the sum of the samples with weights alpha(1-alpha)^(n-i), the first with (1-alpha)^(n-1) |
| Anomaly.VarianceIsAverage | internal/anomaly/anomaly.go:93-96 | and the variance is the equally weighted sum of the squared deviations from that mean |
| Anomaly.WeightsAddUp | internal/anomaly/anomaly.go:93-96 | those weights add up to one |
| Anomaly.SpreadAround | internal/anomaly/anomaly.go:93-96 | the weighted squared deviation from any point |
| Anomaly.VarianceNonNegative | internal/anomaly/anomaly.go:93-97 | the variance is never negative, and the count is the number of samples |
| Anomaly.WithinRange | internal/anomaly/anomaly.go:95 | the mean stays within the range of the samples |
| Anomaly.ConstantNeverAlerts | internal/anomaly/anomaly.go:76-100 | a constant series never alerts |
| Anomaly.RepeatsQuietIff | internal/anomaly/anomaly.go:76-106 | the k-th and later repeats of a value stay quiet in every series exactly when, with w = (1-alpha)^k, zThres^2 (1-w) > w and w <= 1/2 |
| Anomaly.OnlyChangesAlertIff | internal/anomaly/anomaly.go:76-106 | in every series only a sample that differs from the one before alerts, exactly when zThres^2 * alpha > 1 - alpha and alpha >= 1/2 |
| Anomaly.RepeatAlertsIff | internal/anomaly/anomaly.go:76-106 | when zThres^2 * alpha > 1 - alpha, a repeat alerts exactly when the series is warm, its standard deviation is at or below the guard, and the value is farther than that from the mean |
| Anomaly.CountRepeatsQuietIff | internal/anomaly/anomaly.go:76-106 | in series of counts the k-th and later repeats stay quiet exactly when zThres^2 (1-w) > w and w <= 1/2 or w (1-w) is above the square of the guard |
| Anomaly.CountsSpread | internal/anomaly/anomaly.go:93-96 | a mean of counts is at a distance from a count only if the variance and the squared distance make up for it |
| Anomaly.DeployedRepeats | cmd/ingest/main.go:60 | with alpha 0.25 and threshold 3 no repeat of a count alerts, in any series |
| AnomalyWorker.Worker.Tick | internal/worker/anomalyworker.go:51-80 | one pass step of the run, for some order of observation; the checkpoint moves by up to 100000; a series of a tenant with a name apart from the others alerts exactly when its count is anomalous |
| AnomalyWorker.Worker.ObserveAll | internal/worker/anomalyworker.go:70-78 | every series of the window takes in its count once, in some order, zero counts included |
| AnomalyWorker.CountedOnce | internal/worker/anomalyworker.go:51-80 | after any run of writes and passes, what a series was fed adds up to the number of its entries with level error or fatal up to the checkpoint, and its baseline is what those values alone lead to |
| AnomalyWorker.FedCounts | internal/worker/anomalyworker.go:58-66 | the detector is fed nothing but counts |
| AnomalyWorker.EqualCountQuiet | internal/worker/anomalyworker.go:57-78 | in any state of any run, a window with as many errors of a series as the one it was in before does not alert, when repeats of counts are quiet |
| AnomalyWorker.WriteKeepsValid | internal/worker/anomalyworker.go:51-56 | a write to the store between two passes keeps the worker valid |
| AnomalyWorker.AnyOrder | internal/worker/anomalyworker.go:70-78 | with names that are apart, every order of the map iteration leads to the same baselines |
| AnomalyWorker.Worker.Count | internal/worker/anomalyworker.go:57-66 | the series of the window and the number of error and fatal entries of each |
| AnomalyWorker.ErrorsArePositions | internal/worker/anomalyworker.go:64-66 | the errors of a series are the positions of its entries with level error or fatal |
| AnomalyWorker.FedTotal | internal/worker/anomalyworker.go:51-80 | however passes cut the log, the values fed to a series add up to its errors up to the checkpoint |
| AnomalyWorker.FedGrown | internal/worker/anomalyworker.go:52 | what passes have read stays as it was when the log grows |
| AnomalyWorker.ShareKeyIff | internal/anomaly/anomaly.go:64 | two tenants can have series with one key, under non-empty service names, exactly when one name is the other followed by NUL |
| Embedding.ScoreBounds | internal/embed/embed.go:48-112 | the cosine of any two embeddings lies in [-1, 1] |
| Embedding.CauchySchwarz | internal/embed/embed.go:101-112 | the squared dot product is at most the product of the squared lengths |
| Embedding.CosineSymmetric | internal/embed/embed.go:103-112 | the score is symmetric |
| Embedding.SelfScore | internal/embed/embed.go:87-112 | a text scores one against itself, unless its words cancel out |
| Embedding.TwoWords | internal/embed/embed.go:75-84 | words whose hashes have different residues embed orthogonally; with equal residues they score one or minus one as their top bits agree or not |
| Embedding.RawAdds | internal/embed/embed.go:48-56 | coordinates add up over the words of a text |
| Embedding.TokensAre | internal/embed/embed.go:60-71 | the words that count are those of at least two bytes |
| Embedding.OrderIrrelevant | internal/embed/embed.go:48-56 | the embedding depends on the multiset of tokens only |
| Embedding.Tokenize | internal/embed/embed.go:60-71 | the filter written over its own input keeps exactly the long enough words |
| Embedding.Embed | internal/embed/embed.go:48-56 | the signed bucket sums, normalised |
| Embedding.L2Normalize | internal/embed/embed.go:87-99 | rescales in place by the inverse length; leaves a zero vector alone |
| Embedding.Cosine | internal/embed/embed.go:103-112 | the dot product, or zero for different lengths |
| Embedding.OtherLength | internal/embed/embed.go:104-106 | vectors of different lengths score zero |
| Filters.FilterInPlace | internal/query/rag.go:59-64 | filtering a slice over itself equals the filter |
| VectorIndex.MemVectorStore.Upsert | internal/vector/vector.go:59-71 | adds an item to its tenant's partition unless its key is taken |
| VectorIndex.UpsertCoherent | internal/vector/vector.go:59-71 | the key set stays exactly the keys of the stored items, each once, in its tenant's partition |
| VectorIndex.KeyTaken | internal/vector/vector.go:63-68 | a key is taken exactly when the tenant has an item with that reference |
| VectorIndex.MemVectorStore.Len | internal/vector/vector.go:97-105 | counting partition by partition gives the number of keys |
| VectorIndex.MemVectorStore.Search | internal/vector/vector.go:73-95 | ranks the tenant's partition only; nothing for an empty tenant |
| VectorIndex.TopScoresSame | internal/vector/vector.go:83-94 | the scores shown depend on the multiset of scores in the partition only, not on the order of its items |
| VectorIndex.TopHitsOptimal | internal/vector/vector.go:77-94 | min(k, size) items, 5 for k of zero or less, each once, by descending score, none left out that scores higher than one returned |
| LogStore.MemStore.WriteBatch | internal/store/store.go:63-77 | appends the redacted entries of a batch in order with the next IDs |
| LogStore.MemStore.Search | internal/store/store.go:81-102 | the first `limit` matching entries of the reversed log |
| LogStore.MemStore.Since | internal/store/store.go:104-119 | the first `limit` entries with a greater ID |
| LogStore.FirstNewer | internal/store/store.go:112-114 | binary search finds where they start |
| LogStore.MemStore.Get | internal/store/store.go:121-132 | the entry with that ID if it is the tenant's |
| LogStore.FoundIsOwn | internal/store/store.go:79-132 | whatever a search finds matches and is what `Get` returns for its ID and tenant |
| LogStore.FoundNewestFirst | internal/store/store.go:93-101 | a search lists newer entries first, and a matching entry it leaves out is older than all it lists |
| LogStore.FoundIff | internal/store/store.go:136-156 | short of the limit an entry is found exactly when it is the tenant's and service, level, text, since and until do not exclude it |
| LogStore.FoundComplete | internal/store/store.go:93-101 | a search misses a matching entry only when the limit is reached |
| LogStore.NewerContinues | internal/store/store.go:104-119 | a read at a checkpoint continues the log where the checkpoint stands |
| LogStore.LookupStable | internal/store/store.go:121-132 | an entry once found under an ID is found there ever after |
| LogStore.PersistRedacted | internal/store/store.go:63-77 | the store takes in exactly the redacted entries of a batch |
| LogStore.PersistContents | internal/store/store.go:63-77 | the store drops nothing from a redacted batch |
| KnowledgeBase.Store.Add | internal/kb/kb.go:53-68 | files under a new number and indexes; nothing filed before changes |
| KnowledgeBase.Store.GetByRef | internal/kb/kb.go:71-80 | the one document of the tenant with that reference, whatever the order of the scan |
| KnowledgeBase.KbRefText | internal/kb/kb.go:36 | the reference in full |
| KnowledgeBase.KbRefInjective | internal/kb/kb.go:36 | the reference determines kind and number |
| Model.EqualHashes | internal/model/stored.go:23-32 | for tenants whose names are apart, equal content hashes mean the same tenant, and for services so named the same service and message |
| Text.ParseDec | internal/query/service.go:85 | a printed ID is read back, up to 64 bits |
| Buffers.Buffer.Publish | internal/buffer/buffer.go:36-45 | accepts exactly while there is room, and counts |
| Ingest.Serve | internal/ingest/handler.go:65-98 | the valid prefix is stamped, redacted and offered in order; what fits is accepted, the rest shed; the response in each case |
| Ingest.PreparedSafe | internal/ingest/handler.go:73-82 | whatever is published is the caller's, redacted, free of secret fields and not empty; all but tenant, an absent time stamp, message, attributes and the mark is as sent |
| Writer.BatchWriter.Run | internal/writer/writer.go:39-92 | for any turns, buffer, store, batch and phase are afterwards what `After` says, about which the following rows hold |
| Writer.AfterWhole | internal/writer/writer.go:39-92 | for any turns, stored ++ batch ++ channel is what was accepted, without what the guard drops, and the batch stays below its size |
| Writer.ArrivalsAccepted | internal/buffer/buffer.go:36-45 | while the channel is open and has room, everything that arrives is accepted, in order |
| Writer.IncomingTakes | internal/writer/writer.go:80-88 | a turn for a channel with entries takes exactly the first one into batch or store, unless the guard drops it |
| Writer.TickWrites | internal/writer/writer.go:89-90 | a tick writes the whole batch and takes nothing from the channel |
| Writer.LoopCatchesUp | internal/writer/writer.go:59-91 | as many turns for the channel as it has entries, and a tick, leave the channel empty and everything accepted stored |
| Writer.DrainEnds | internal/writer/writer.go:61-78 | a draining loop that is left alone takes and stores what there is, and exits |
| Writer.ExitsIff | internal/writer/writer.go:59-91 | the loop exits exactly at a turn that finds the channel empty while draining or cancelled, or empty and closed |
| Writer.DrainsIff | internal/writer/writer.go:61-78 | short of an exit it still loops exactly as long as no turn was a cancellation |
| Writer.GoneSettled | internal/writer/writer.go:61-78 | after an exit exactly what was accepted before the decision to leave is stored, the channel holds what came after, and with a closed channel that is nothing |
| Writer.BatchWriter.Flush | internal/writer/writer.go:44-57 | writes the batch and empties it |
| Metrics.Histogram.Observe | internal/metrics/metrics.go:110-117 | keeps every cumulative count equal to the number of values at or below its bound |
| Metrics.Histogram.Render | internal/metrics/metrics.go:119-131 | those counts, nondecreasing, +Inf equal to the total |

## Left out

- HTTP routing, JSON decoding, authentication, configuration, logging and the Prometheus text format: input and output without an invariant of their own.
- `rbac.Can`, the anomaly feed, `StubStore`, worker metrics hooks: table lookups and one-line facts. Capability decisions are inputs of the query methods.
- The regular expressions and the entropy formula: `Redaction.Rules` takes any pattern passes that keep non-empty text non-empty, and any predicate on strings.
- Floating-point rounding and Go's saturating durations: exact reals are used instead.
- The baseline's `updated` stamp: nothing reads it.
- Mutexes and the Go memory model: each locked or atomic operation is one step.
- Injection flags and the wording of answers: only refusal and citations are modelled.
- Write errors and replay of dead letters: the in-memory store does not fail, and replay does not exist in the program.
- Redaction.Redact: the entry is returned as a new value, where the program rewrites it through a pointer.
- Writer.BatchWriter.Run: what other goroutines publish between two turns, and before the last write, is part of the schedule given to it; what happens between its other steps is covered by `Pipeline`.
- VectorIndex.MemVectorStore.Search: the sort itself is the standard library's and is a parameter.
- Isolation.HitsIsolation: the order in which a tenant's documents and log items enter its partition depends on the schedule, and so does which of two equal scores comes first; so their pattern is a condition. Without it `Isolation.ScoresIsolation` holds.
- Buffers.Buffer.Publish: with capacity zero it always refuses, where Go's unbuffered channel accepts while the writer is waiting.
- Kinds of documents other than the two the program declares: `Kind` is a string type there, and a kind named "log" or containing a NUL would be taken for a log item or break the keys.
