# Verification of the SOC server's state machines and algorithms

This project models, in Dafny 4.11, the parts of the server that carry strong guarantees,
and proves those guarantees for all inputs, all runs and all interleavings. It stands
beside the repository: it models what the Python code does and never runs it.

| part | files | what is proved |
|---|---|---|
| Investigation memory | `MemoryTable`, `Eviction`, `Consolidation`, `MemoryUpsert`, `MemoryRuns`, `MemoryOverfull`, `MemoryWriters`, `MemoryRecall`, `MemoryKeys`, `MemoryStore` | Concurrent writers of every kind are serialisable, keep trust and protection, and respect the cap; folding is lossless and idempotent; pressure deletes exactly the least evictable rows; a stored key is refused exactly when stated; trust columns never change and protected rows never go |
| Circuit breaker | `CircuitBreaker`, `BreakerRuns` | Spacing of trials, meaning of the failure count, and exact descriptions of lock-out and of second trials, over every order of reports from any number of calls; the retry loop is such a run |
| Graph analytics | `CoOccurrence`, `PageRank` | The inverted index builds the all-pairs graph; the power iteration contracts, keeps its mass and settles within the default number of rounds |
| Inbound guards | `JsonDepth`, `RateLimiter` | The byte scanner computes JSON nesting depth for every way of writing every value, and guards the parser on texts that go wrong; the limiter answers from the whole accepted history in bounded memory |
| Chunker | `Text`, `Normalize`, `NormalForm`, `Sentences`, `Packing`, `Chunker`, `ChunkBound` | What is kept (words, characters, order), what is covered, the true length bound, and exactly when the documented one holds |
| Redaction | `RecencyOrder`, `RedactMemo`, `RedactWalk` | When a memoised answer is still right, exactly which requests hit, exactly which calls are fresh, and exactly which requests hide what layer 1 removes |
| Corpora | `LabelSplits`, `ForecastStore` | The greedy split is balanced, seeds every split and ignores row order exactly when stated; the capped append is "newest rows of the union" and reports its gain exactly when stated |

`Basics`, `FiniteSets` and `StableSort` hold what several parts share. Objects whose methods
update fields are classes (`MemoryDb`, `Breaker`, `SlidingWindowRateLimiter`, `Redactor`,
`Store`), loops are methods with invariants, and each method is proved against a function or
relation about which the theorems are then stated.

## What stands for what

- The units table is a map from row id to row, an SQL statement is one step on it, a
  transaction works on a private copy under the write lock, and ROLLBACK restores the
  snapshot. Reading order is arbitrary wherever the SQL has no ORDER BY.
- Row ids are fresh: a run never draws the same random id twice. SHA-256 is injective on the
  texts it is given, and `MemoryKeys` proves those texts differ whenever the keys do.
- One transaction sees one clock and one configuration (`Env`); the age of a stamp, the decay
  weight (`mcp_server/correlation/three_sum_core.py:598-629`), case folding and text
  normalisation are arbitrary functions in it. Stamps and ids are ordered as their texts are.
- Every unit offered to the upsert has `support_count` 1, as every caller builds it.
- An HTTP attempt is an arbitrary outcome; a `Foreign` outcome is any exception outside the
  two handlers. What other calls ask and report while one waits for a reply, and while it
  sleeps before the next attempt, are arbitrary lists.
- Scores, shares and times are exact reals.
- Redaction layers, credential and identity path tests, the domain mask and digests are
  arbitrary functions, so the results hold whatever the regular expressions match. The masks
  for names and locations are written out.

## Where the code and its documentation differ

The models follow the code.

- `_pack` and `split` say "at most `size`" (`mcp_server/core/chunker.py:96`, `mcp_server/core/chunker.py:138`). With an
  overlap of 2 or more a chunk can reach `size + overlap - 1`: `Chunker.OverflowingUnits` and
  `ChunkBound.OverflowingText` build one for every such size. `Chunker.DocumentedBoundExactly`
  and `ChunkBound.SplitBoundExactly` say exactly when the documented bounds hold.
- Sentence splitting keeps the words of a text exactly when no CJK terminator is followed by
  a non-space character (`Sentences.SentencesKeepWordsExactly`).
- The breaker "allows a single half-open trial" (`mcp_server/core/http_client.py:69`). A call sent before the
  outage that fails late clears the flag, and two trials are then out together
  (`BreakerRuns.TwoTrialsAtOnce`). That can happen exactly when a call is in flight as the
  first trial goes out (`BreakerRuns.SecondTrialExactly`).
  "Consecutive failures" are failures since the last success or closing 4xx: throttles and
  other 4xx in between do not reset the count.
- A half-open trial that ends in an unhandled exception reports nothing and locks the breaker
  for good (`BreakerRuns.VanishedTrialLocksOut`, `BreakerRuns.LockedOutExactly`).
- "A reaffirmation still lands when the subject is at its cap" (the repository's `README.md:214-215`) holds at
  or under the cap. Over it, where `record_unit` can take a subject, folding can remove the
  row with the key and the write is refused (`MemoryOverfull.OverfullSubjectRefusesStoredKey`
  reaches such a table; `MemoryUpsert.StoredKeyRefusedExactly` says exactly when).
- Layer 1 "applies in all states and is never bypassable" (the repository's `README.md:486`).
  Under `raw` it is never bypassed. Under the other policies an identity field is masked
  instead of stripped (`mcp_server/core/redact.py:464-467`), and `domain` and `location` are
  rewritten before it runs (`mcp_server/core/redact.py:468-475`), so that what the mask keeps of
  a secret stays: `RedactWalk.IdentityShowsSecret`, `RedactWalk.DomainShows`,
  `RedactWalk.LocationShowsSecret`, with the header of `RedactWalk.HeaderTailShows`. What layer 1
  removes is hidden exactly when the request is raw, or refused, or has those three masks
  switched off (`RedactWalk.SwitchesDecide`).
- The redaction memo is not told about attacker registry changes, so a hit can be stale. One
  call is certain to be fresh exactly when it bypasses the memo, runs no layer that reads the
  registry, or finds the registry as it was where its answer was computed
  (`RedactMemo.FreshCallExactly`).
- `append_observations` "returns the number of new rows" (`mcp_server/core/forecast_store.py:117`). It counts the rows
  that were not stored before, the trim notwithstanding. That is certain to be what the table
  gains exactly when each of them has fewer than `store_max` rows as new beside it
  (`ForecastStore.ReportsGainExactly`), and certain to be too many exactly when they are
  crowded out by newer rows (`ForecastStore.ReportsTooManyExactly`). With equal timestamps at
  the cut SQLite may keep either row, and `ForecastStore.OneOutcomeExactly` says when the
  outcome is fixed.
- `assign_splits` says a rebuild "reproduces it exactly" from the counts
  (`scripts/build_label_corpus.py:103-104`). That holds for the single-tactic techniques the builder passes in;
  with a technique in two tactics the row order can decide
  (`LabelSplits.SharedTechniqueDependsOnOrder`, `LabelSplits.OrderFreeExactly`).

## Model

| member | source | states |
|---|---|---|
| Eviction.PassesAreLexicographic | mcp_server/core/memory_store.py:468-476 | Three stable passes leave the evictable rows in the strict order (last_seen, support_count, unit_id) |
| Eviction.EvictionOrder | mcp_server/core/memory_store.py:468-476 | The list returned is that order of exactly the evictable rows |
| Eviction.EvictionOrderIgnoresReadOrder | mcp_server/core/memory_store.py:468-476 | Two readings of the same rows give the same eviction list |
| Eviction.PositionIsRank | mcp_server/core/memory_store.py:468-476 | The row at position k has exactly k evictable rows before it in the order |
| Eviction.PrefixIsDoomed | mcp_server/core/memory_store.py:525-527 | The slice that is cut off, of at most max(0, rows - cap + 1) rows, is the set the declarative rule dooms, and has its size |
| Eviction.PressureDeletesExactly | mcp_server/core/memory_store.py:520-532 | Pressure deletes min(evictable, max(0, rows - cap + 1)) rows, each before every evictable row it keeps, and no protected or unexpired one |
| Eviction.OldestGoFirst | mcp_server/core/memory_store.py:468-476 | Of two evictable rows pressure never takes the one seen later, more confirmed among those seen together, or with the larger id among equals, and leaves the other |
| Eviction.PressureFreesOnePlace | mcp_server/core/memory_store.py:520-532 | A full subject ends with cap - 1 rows, or with its unevictable ones when those fill the cap |
| Eviction.SweepDeletesEvictable | mcp_server/core/memory_store.py:520-532 | The sweep deletes a row exactly when it is of the subject and evictable |
| Eviction.ExpiresExactly | mcp_server/core/memory_store.py:437-465 | A row may be evicted if and only if retention is on, it is no audit record, its weight is below 0.01, its stamp is readable, and one whole TTL has passed for each of its first four confirmations |
| Eviction.PrunedKeeps | mcp_server/core/memory_store.py:520-532 | Pruning leaves other rows, other subjects and the table's constraints as they were |
| Consolidation.ConsolidationGroups | mcp_server/core/memory_store.py:484-494 | Each returned key has more than one member, every such key is returned once, and its group is exactly its unprotected reasons in reading order |
| Consolidation.Survivor | mcp_server/core/memory_store.py:507 | The survivor is the member with the least (first_seen, unit_id) |
| Consolidation.GroupValues | mcp_server/core/memory_store.py:507-514 | Sum, maximum, minimum and survivor over the list of rows are those of the class they were read from |
| Consolidation.FoldStep | mcp_server/core/memory_store.py:506-515 | Folding one more class gives its survivor the merged values and removes exactly the others |
| Consolidation.FoldRest | mcp_server/core/memory_store.py:494-517 | Classes of one row are left alone, so folding the groups folds the subject |
| Consolidation.FoldKeepsRows | mcp_server/core/memory_store.py:497-517 | No row gains or loses anything but a later last_seen and a new counter |
| Consolidation.FoldedClass | mcp_server/core/memory_store.py:497-517 | After the fold a class is its earliest row alone, with the class's support and last stamp |
| Consolidation.FirstCopyStays | mcp_server/core/memory_store.py:484-517 | A reason stays if and only if no other unwithdrawn reason of its subject, provenance and folded text is earlier by (first_seen, id) |
| Consolidation.FirstCopyCarriesAll | mcp_server/core/memory_store.py:507-515 | It then has the support of all its copies and the last stamp among them, and is otherwise unchanged |
| Consolidation.NoCopiesLeft | mcp_server/core/memory_store.py:484-517 | No two rows left in the subject are copies |
| Consolidation.FoldIsLossless | mcp_server/core/memory_store.py:497-517 | Every class keeps its total support, first and last stamp in one row; every other row is untouched |
| Consolidation.FoldIsIdempotent | mcp_server/core/memory_store.py:497-517 | A second pass changes nothing |
| MemoryUpsert.OutcomeMeaning | mcp_server/core/memory_store.py:563-571 | `reaffirmed`, `capacity` and `inserted` each hold exactly for the stated state of the relieved table |
| MemoryUpsert.RoomForNew | mcp_server/core/memory_store.py:535-571 | Below the cap a new key adds exactly the offered row |
| MemoryUpsert.RoomForKnown | mcp_server/core/memory_store.py:535-539 | Below the cap a stored key moves its row's last stamp and adds one to its counter, and nothing else changes |
| MemoryUpsert.FullConfirms | mcp_server/core/memory_store.py:557-571 | At the cap, a key that survives folding and pruning is confirmed in what they leave |
| MemoryUpsert.FullInserts | mcp_server/core/memory_store.py:557-571 | At the cap, a new key takes a place they free |
| MemoryUpsert.FullRefuses | mcp_server/core/memory_store.py:565-570 | Without a free place the table stays as it was, unfolded and unpruned |
| MemoryUpsert.UpsertKeepsCap | mcp_server/core/memory_store.py:542-571 | No write takes a subject past max(cap, where it stood), other subjects keep their count, and `capacity` changes nothing |
| MemoryUpsert.RelievedKeeps | mcp_server/core/memory_store.py:559-562 | The pressure path only drops evictable or folded rows of the subject and keeps every protected row |
| MemoryUpsert.PrunedCount | mcp_server/core/memory_store.py:520-532 | Pressure leaves a subject at or over the cap exactly when its unevictable rows alone reach it, and then every evictable row is gone |
| MemoryUpsert.RelievedCount | mcp_server/core/memory_store.py:559-562 | The same of folding and pruning together, said of the folded table |
| MemoryUpsert.StoredKeyRefusedExactly | mcp_server/core/memory_store.py:552-571 | A stored key is refused if and only if the subject is at the cap, its rows that neither fold away nor may be evicted fill the cap, and the row with the key folds away or may be evicted |
| MemoryUpsert.StoredKeyIsNeverRefused | mcp_server/core/memory_store.py:552-571 | At or under the cap a stored key never answers `capacity`, and is stored afterwards |
| MemoryOverfull.PairFolds | mcp_server/core/memory_store.py:497-517 | Two reasons that are the only ones to fold: folding removes the later row and no other |
| MemoryOverfull.OverfullIsReached | mcp_server/core/memory_store.py:574-646 | Three decisions, two notes and one `record_unit` make a legal run from the empty table to four rows under a cap of three |
| MemoryOverfull.OverfullSubjectRefusesStoredKey | mcp_server/core/memory_store.py:552-571 | In the table that run ends in, writing a stored note again answers `capacity` |
| MemoryRuns.BuiltUnitsAreTrusted | mcp_server/core/memory_store.py:604-640 | The decision and reason rows that are built satisfy the trust rules; only a non-advisory decision is protected |
| MemoryRuns.BuiltUnitsSay | mcp_server/core/memory_store.py:604-640 | A decision row says its verdict, subject, trust and time; a reason row has the first 4000 characters of the note and a key of all of it |
| MemoryRuns.StepKeeps | mcp_server/core/memory_store.py:535-539 | No operation changes a trust column or drops a protected row, and a new row is the one offered |
| MemoryRuns.StepKeepsTrust | mcp_server/core/memory_store.py:247-252 | Every operation takes a trusted table to a trusted table |
| MemoryRuns.SweepLeavesAllTidy | mcp_server/core/memory_store.py:370-389 | After a sweep no row of a listed subject may be evicted and no two of its reasons are copies; other subjects are untouched |
| MemoryRuns.WholeTableTidy | mcp_server/core/memory_store.py:370-389 | When the sweep lists every subject that holds of the whole table |
| MemoryRuns.TrustColumnsNeverChange | mcp_server/core/memory_store.py:535-539 | Over every run, from any starting table, a row's type, provenance, taint, kind, value and key stay what they were |
| MemoryRuns.ProtectedForever | mcp_server/core/memory_store.py:446-452 | Over every run a protected row is in all later states and still protected |
| MemoryRuns.TrustHoldsThroughout | mcp_server/core/memory_store.py:247-252 | Over every run `world` implies an analyst's provenance and source, and taint matches provenance |
| MemoryRuns.AtMostFiveAnalystDecisions | tests/test_memory_retention.py:126 | A subject holds at most five authoritative decisions, one for each verdict |
| MemoryWriters.StepRefines | mcp_server/core/memory_store.py:332-571 | A step that ends a transaction is the atomic operation with its outcome, for decisions, `record_unit`, `invalidate_unit` and `prune_memory` alike; no other step changes the committed table |
| MemoryWriters.StepKeepsInvariant | mcp_server/core/memory_store.py:554-571 | Lock ownership, private copies and the log stay consistent under every step |
| MemoryWriters.EveryInterleavingIsSerial | mcp_server/core/memory_store.py:547-549 | In every interleaving of all writers the committed table is the finished ones replayed one at a time |
| MemoryWriters.ProtectedInEveryInterleaving | mcp_server/core/memory_store.py:446-452 | In every interleaving a protected row is in all later committed tables and still protected |
| MemoryWriters.TrustInEveryInterleaving | mcp_server/core/memory_store.py:247-252 | In every interleaving a trusted table stays trusted |
| MemoryWriters.AfterKeepsCap | mcp_server/core/memory_store.py:542-571 | Every operation but `record_unit` leaves each subject within max(cap, where it stood) |
| MemoryWriters.CapHoldsInEveryInterleaving | tests/test_memory_store_concurrency.py:67 | With any writers but `record_unit`, every committed state holds at most max(cap, initial count) rows for each subject |
| MemoryKeys.KeysHaveOwnTexts | mcp_server/core/memory_store.py:136-137 | Two keys are hashed over the same text only if they are the same key, whatever characters the subject holds |
| MemoryKeys.TextsAre | mcp_server/core/memory_store.py:626-640 | The three texts that are hashed, spelled out |
| MemoryKeys.KnownVerdictHasNoBar | mcp_server/core/memory_store.py:600-629 | The verdict check is what the previous row needs |
| MemoryKeys.BarInVerdictCollides | mcp_server/core/memory_store.py:136-137 | Without it two subjects would share a text |
| MemoryRecall.PassesAreRelevance | mcp_server/core/memory_store.py:327-329 | The two reversed stable passes order the live rows by weight, then by last write |
| MemoryRecall.BestAreTaken | mcp_server/core/memory_store.py:655-697 | Reading, filtering and clamping give the most relevant readable rows, each ahead of every readable row left out; a list below the limit misses only rows with 1000 live rows ahead of them |
| MemoryRecall.ShownOutweighHidden | mcp_server/core/memory_store.py:327-329 | A row shown weighs no less than one left out, and among equal weights was not seen earlier |
| MemoryRecall.ReadableExactly | mcp_server/core/memory_store.py:404-415 | Which decisions and reasons a reader may see, by provenance, taint, type and verdict |
| MemoryRecall.ReasonsAreQuoted | mcp_server/core/memory_store.py:665-668 | Reasons are shown with their own text and count, in order |
| MemoryRecall.NothingBeyondRead | mcp_server/core/memory_store.py:655-697 | A subject of at most 1000 rows has none beyond the read, so a list below its limit is complete |
| MemoryRecall.ViewsAreHonest | mcp_server/core/memory_store.py:404-415 | A decision is shown with its own verdict and count, and as authoritative if and only if retention protects it |
| MemoryStore.MemoryDb.Select | mcp_server/core/memory_store.py:504 | Reads every row of the subject once |
| MemoryStore.MemoryDb.ConsolidateSubject | mcp_server/core/memory_store.py:497-517 | The loop over groups leaves the folded table and counts the rows removed |
| MemoryStore.MemoryDb.MergeGroup | mcp_server/core/memory_store.py:507-516 | One UPDATE and its DELETEs have the effect of one fold step |
| MemoryStore.MemoryDb.Candidates | mcp_server/core/memory_store.py:523-527 | The candidates are exactly the rows the declarative rule dooms, min(evictable, max(0, rows - cap + 1)) of them under pressure and all evictable ones otherwise |
| MemoryStore.MemoryDb.PruneSubject | mcp_server/core/memory_store.py:520-532 | Exactly those rows are deleted and counted |
| MemoryStore.MemoryDb.ExecUpsert | mcp_server/core/memory_store.py:535-539 | Insert or bump the holder of the key, returning its counter |
| MemoryStore.MemoryDb.Upsert | mcp_server/core/memory_store.py:542-571 | The method with its rollback has the effect and outcome of the transaction function, and keeps the constraints |
| MemoryStore.MemoryDb.RecordDecision | mcp_server/core/memory_store.py:574-646 | Writes the decision and, for an analyst's note only, the tainted reason; refuses unknown verdicts unchanged; keeps trust |
| MemoryStore.MemoryDb.RecordUnit | mcp_server/core/memory_store.py:215-283 | Accepts exactly the stated inputs, stores the row with every column as given, stripped or defaulted and no key, and keeps trust |
| MemoryStore.MemoryDb.InvalidateUnit | mcp_server/core/memory_store.py:332-348 | Withdraws the row, which is protected from then on, with the note the reason gives |
| MemoryStore.NoteOf | mcp_server/core/memory_store.py:332-348 | The note is never empty, at most 200 characters, and the stripped reason whenever that fits |
| MemoryStore.MemoryDb.PruneMemory | mcp_server/core/memory_store.py:370-389 | Lists each subject once, folds then prunes each, counts the rows folding and pruning remove, and leaves the whole table with nothing to evict or fold |
| MemoryStore.MemoryDb.RecallSubject | mcp_server/core/memory_store.py:655-697 | Both lists are the most relevant readable rows, in order, up to the clamped limit, and miss only rows beyond the read |
| MemoryStore.WritersAreReadable | mcp_server/core/memory_store.py:404-415 | Whatever the writers store as a decision or a reason can be read back |
| MemoryStore.KindIsBeforeColon | mcp_server/core/memory_store.py:126-133 | A subject's kind is what stands before its first colon |
| MemoryTable.MaxUnitsPerSubject | mcp_server/core/memory_store.py:418-420 | The cap is the configured one, 50 when none is, and one when that is negative |
| CircuitBreaker.Breaker.BeforeCall | mcp_server/core/http_client.py:91-100 | Admission and the half-open flag as a function of state and clock |
| CircuitBreaker.Breaker.OnFailure | mcp_server/core/http_client.py:110-119 | Counts, re-arms the timer and drops the flag |
| CircuitBreaker.Breaker.OnThrottled | mcp_server/core/http_client.py:121-124 | Re-arms the timer without counting |
| CircuitBreaker.Breaker.OnLiveness | mcp_server/core/http_client.py:126-132 | Closes the breaker exactly when a trial is out |
| CircuitBreaker.ThrottleWaitBounded | mcp_server/core/http_client.py:146-166 | However the replies come, `Retry-After` keeps a call asleep for at most 30 seconds for each throttled attempt |
| CircuitBreaker.Settle | mcp_server/core/http_client.py:193-226 | Each reply leads to the one callback of its class, and an unhandled exception to none |
| CircuitBreaker.RepliesMoveBreaker | mcp_server/core/http_client.py:193-226 | By code: success closes, an outage counts and re-arms, 429 re-arms without counting, any other 4xx closes a half-open breaker and leaves others alone, an unhandled exception changes nothing |
| CircuitBreaker.OnlyTheseAreRetried | mcp_server/core/http_client.py:199-226 | A request is followed by another only after an outage or a 429 with a delay of at most 30 seconds |
| CircuitBreaker.ThrottleWaitGrows | mcp_server/core/http_client.py:199-208 | Each such 429 adds exactly the delay it asked for and no other reply adds any |
| CircuitBreaker.ApiCall | mcp_server/core/http_client.py:187-227 | For every script of replies and of what others do meanwhile: at most 1 + max_retries requests, each admitted, each but the last worth a retry, which of the ways the call ended, and at most 30 * max_retries seconds of `Retry-After` |
| CircuitBreaker.OneReportPerRequest | mcp_server/core/http_client.py:193-226 | With classified replies there is exactly one report for each request sent |
| BreakerRuns.TimerHolds | mcp_server/core/http_client.py:91-132 | After a failure, throttle or trial, until a closing event, the flag is up or the timer is at least that late |
| BreakerRuns.TrialsAreSpaced | mcp_server/core/http_client.py:91-132 | Trials of an open breaker are at least recovery_timeout apart, and the first comes that long after the failure that opened it |
| BreakerRuns.NothingSentWhileTimed | mcp_server/core/http_client.py:95-96 | Inside the timer of an open breaker no request is sent and nothing changes |
| BreakerRuns.FailuresAreCounted | mcp_server/core/http_client.py:102-132 | The counter is the number of failures since the last success or closing 4xx |
| BreakerRuns.HalfOpenHasItsTrial | mcp_server/core/http_client.py:97-100 | When every call reports, a half-open breaker has its trial in flight |
| BreakerRuns.SecondTrialNeedsAStaleReport | mcp_server/core/http_client.py:97-100 | Two trials out together need a failure or throttle reported by another call in between |
| BreakerRuns.SecondTrialExactly | mcp_server/core/http_client.py:97-100 | When a trial goes out, a second one can go out beside it if and only if some other call is in flight at that moment |
| BreakerRuns.TwoTrialsAtOnce | mcp_server/core/http_client.py:97-100 | A six-event run in which that happens |
| BreakerRuns.LockedOutExactly | mcp_server/core/http_client.py:91-132 | No continuation ever admits a request if and only if the breaker is open and half-open with nothing in flight |
| BreakerRuns.NeverLockedOut | mcp_server/core/http_client.py:187-226 | With classified outcomes that state is never reached |
| BreakerRuns.VanishedTrialLocksOut | mcp_server/core/http_client.py:198-220 | One unclassified trial reaches it |
| BreakerRuns.CallsFormARun | mcp_server/core/http_client.py:187-227 | The attempts of a call and all that others do around them are a run that ends where the retry loop leaves the breaker |
| BreakerRuns.ClassifiedTrace | mcp_server/core/http_client.py:193-226 | With classified replies throughout, that run is one in which every call reports |
| CoOccurrence.Invert | mcp_server/core/attack_graph.py:56-59 | The index lists each node once under each of its batches and nothing else |
| CoOccurrence.AddBatch | mcp_server/core/attack_graph.py:63-70 | One batch adds one to each pair of its nodes and to nothing else |
| CoOccurrence.BuildEdges | mcp_server/core/attack_graph.py:52-70 | The loops build the all-pairs graph: joined exactly when batches meet, with the number of common batches as weight |
| CoOccurrence.AllPairsIsUnique | mcp_server/core/attack_graph.py:52-70 | That definition fixes the graph, so no iteration order shows |
| PageRank.UpdateAt | mcp_server/core/attack_graph.py:191-194 | The scatter loops compute the teleport share plus the inflow from each neighbour |
| PageRank.UpdateIsPageRank | mcp_server/core/attack_graph.py:180-194 | One round is the PageRank equation: (1 - alpha) of the teleport plus, from each neighbour, alpha of its score split evenly over its edge ends |
| PageRank.UpdateMass | mcp_server/core/attack_graph.py:191-194 | Scores stay non-negative and total at most 1, and exactly 1 when no node is isolated or joined to itself |
| PageRank.UpdateContracts | mcp_server/core/attack_graph.py:191-194 | One round brings any two score vectors closer by the factor alpha |
| PageRank.ChangeShrinks | mcp_server/core/attack_graph.py:190-198 | Each change is at most alpha times the one before and at most 2 alpha^k |
| PageRank.CloseToFixedPoint | mcp_server/core/attack_graph.py:195-198 | A small last change bounds the distance to the true PageRank vector |
| PageRank.RoundsStayClose | mcp_server/core/attack_graph.py:190-198 | All rounds from k on stay within 2 alpha^k / (1 - alpha) of round k, solution or not |
| PageRank.DefaultsSuffice | mcp_server/core/attack_graph.py:171-172 | 2 * 0.85^99 is below 1e-6 |
| PageRank.PersonalisedIsDistribution | mcp_server/core/attack_graph.py:183-188 | The personalisation, given or uniform, is a distribution |
| PageRank.PersonalisedFollowsWeights | mcp_server/core/attack_graph.py:183-188 | The teleport is in proportion to the weights when they have a positive total |
| PageRank.PersonalisedIsEven | mcp_server/core/attack_graph.py:183-188 | And even when they have none |
| PageRank.IterateUnfolds | mcp_server/core/attack_graph.py:189-194 | The iteration starts even and applies the update once a round |
| PageRank.OneRound | mcp_server/core/attack_graph.py:191-194 | The nested loops compute the update function |
| PageRank.PersonalizedPagerank | mcp_server/core/attack_graph.py:171-199 | The result is the first iterate of the update whose change is below tol, or the last; it is sub-stochastic, and the loop leaves through `err < tol` whenever 2 alpha^(max_iter - 1) < tol |
| PageRank.SettlesByDefault | mcp_server/core/attack_graph.py:171-172 | With the defaults it always does |
| JsonDepth.MaxJsonDepth | mcp_server/core/server_auth.py:133-151 | The loop computes the fold of the scanner's step |
| JsonDepth.DepthIsNesting | mcp_server/core/server_auth.py:133-151 | For every way of writing every JSON value (RFC 8259, sections 2, 4, 5 and 7) the result is the container nesting depth |
| JsonDepth.RunningDepthIsOpenContainers | mcp_server/core/server_auth.py:133-151 | On every prefix the running depth is the number of containers open there |
| JsonDepth.ParseJsonBodySafe | mcp_server/core/server_auth.py:154-165 | Which bodies reach the parser and what becomes of its answer |
| JsonDepth.GuardIsExact | mcp_server/core/server_auth.py:154-165 | A JSON object gets through exactly when it is short and shallow enough |
| JsonDepth.OpenContainersSeen | mcp_server/core/server_auth.py:133-151 | Whatever follows, well formed or not, a body that starts like a JSON text gets at least the number of containers open there |
| JsonDepth.BrokenOffExactly | mcp_server/core/server_auth.py:133-151 | A text that breaks off gets exactly the most containers open anywhere in it |
| JsonDepth.GuardStopsDeepStarts | mcp_server/core/server_auth.py:154-165 | A body that starts with too many containers open never reaches the parser, whatever comes after |
| RateLimiter.RecentIsTail | mcp_server/core/server_auth.py:191-193 | What pruning leaves of the deque is the accepted calls in the window |
| RateLimiter.AcceptKeepsSpacing | mcp_server/core/server_auth.py:193-195 | An accepted call keeps any limit + 1 accepted calls at least a window apart |
| RateLimiter.WindowHoldsAtMostLimit | mcp_server/core/server_auth.py:168-200 | No window of that length, wherever it ends, holds more than `limit` accepted calls |
| RateLimiter.SlidingWindowRateLimiter.Allow | mcp_server/core/server_auth.py:168-200 | The answer is exactly "fewer than limit accepted calls of this key in (now - window, now]" over the whole history; no deque outgrows the limit, and after an accepted call there are at most 10,000 keys or only live ones |
| RateLimiter.SlidingWindowRateLimiter.Accept | mcp_server/core/server_auth.py:194-200 | Noting an accepted call extends its history and leaves the table swept |
| RateLimiter.SlidingWindowRateLimiter.Prune | mcp_server/core/server_auth.py:191-193 | Pruning drops only calls that have left the window |
| RateLimiter.SlidingWindowRateLimiter.Sweep | mcp_server/core/server_auth.py:196-199 | Sweeping forgets exactly the stale keys and keeps every deque in step with its history |
| Normalize.NormalizeText | mcp_server/core/chunker.py:30-52 | The loops compute the normal form |
| NormalForm.LinesArePieces | mcp_server/core/chunker.py:40-43 | The lines are what stands between line ends of any kind, stripped, without blank ones |
| NormalForm.NormalFormExactly | mcp_server/core/chunker.py:45-52 | The normal form is those lines joined into groups that end with the first sentence end, one group to a line |
| NormalForm.GroupsAreUnique | mcp_server/core/chunker.py:45-52 | There is only one way to group them |
| Normalize.NormalizeKeepsWords | mcp_server/core/chunker.py:30-52 | Normalising keeps the sequence of words |
| Normalize.NormalizeIsIdempotent | mcp_server/core/chunker.py:30-52 | Normalising twice is normalising once |
| Sentences.SplitSentences | mcp_server/core/chunker.py:55-70 | The scan over matches computes the sentences |
| Sentences.CutsExactly | mcp_server/core/chunker.py:16-21 | The text is cut behind every CJK terminator, every ASCII one before white space or the end, and every run of newlines, and nowhere else |
| Sentences.SegmentsAreTheText | mcp_server/core/chunker.py:61-69 | The segments between cuts are the text, with nothing left out |
| Sentences.SentencesKeepInk | mcp_server/core/chunker.py:55-70 | Splitting keeps every non-space character, in order |
| Sentences.SentencesKeepWordsExactly | mcp_server/core/chunker.py:55-70 | It keeps the words if and only if no CJK terminator is followed by a non-space character |
| Packing.CarryIsLongestTail | mcp_server/core/chunker.py:119-125 | The carried units are the longest tail that fits the overlap |
| Packing.PlanExactly | mcp_server/core/chunker.py:104-133 | The plan is the one greedy list of pieces: long units alone, each other piece a longest tail of the one before and then all units that fit |
| Packing.PlanCovers | mcp_server/core/chunker.py:104-133 | Each piece starts no later than the last one ended, reaches at least one unit further, and together they reach the end |
| Packing.PlanPartitions | mcp_server/core/chunker.py:104-133 | Without overlap the pieces share no unit |
| Packing.PlanFits | mcp_server/core/chunker.py:117-129 | No joined piece takes more room than size plus what the overlap can add |
| Chunker.SplitLength | mcp_server/core/chunker.py:77-92 | The window loop ends and computes the non-blank windows, stripped |
| Chunker.EveryIndexInAWindow | mcp_server/core/chunker.py:85-91 | Every index is in some window |
| Chunker.StartsCover | mcp_server/core/chunker.py:85-91 | Windows move on by one step, all but the last end before the text does, and the last reaches the end |
| Chunker.LengthSplitExactly | mcp_server/core/chunker.py:77-92 | A long text gives the windows at multiples of the step, stripped, without blank ones |
| Chunker.ShortTextIsWhole | mcp_server/core/chunker.py:82-83 | A short text is one piece as it stands, or none when it is blank |
| Chunker.LengthSplitWithin | mcp_server/core/chunker.py:77-92 | No piece is longer than `size` |
| Chunker.LengthSplitInk | mcp_server/core/chunker.py:77-92 | Without overlap the pieces hold every non-space character once, in order |
| Chunker.Carry | mcp_server/core/chunker.py:119-126 | The inner loop carries the units from the planned start |
| Chunker.TakeUnit | mcp_server/core/chunker.py:108-129 | One pass emits the head of the plan and keeps the buffer in step with it |
| Chunker.Pack | mcp_server/core/chunker.py:95-133 | The chunks are the plan's pieces, joined or windowed |
| Chunker.PackedExactly | mcp_server/core/chunker.py:104-133 | The chunks of the greedy plan are its joined units with one space between them and the windows of its long units |
| Chunker.UnitsAre | mcp_server/core/chunker.py:155 | Paragraphs are the non-blank lines; sentences are the segments between cuts |
| Chunker.ChunksWithin | mcp_server/core/chunker.py:95-133 | No chunk is longer than size, or size + overlap - 1 when the overlap is at least 2 |
| Chunker.OverflowingUnits | mcp_server/core/chunker.py:126-129 | For every overlap of at least 2 two units reach that length |
| Chunker.DocumentedBoundExactly | mcp_server/core/chunker.py:96 | For `_pack`, "at most size" holds for all units if and only if the overlap is at most 1 |
| Chunker.PackKeepsInk | mcp_server/core/chunker.py:95-133 | Without overlap the chunks hold the units' characters once, in order |
| Chunker.ChunkedFacts | mcp_server/core/chunker.py:136-156 | For every text, size, overlap and strategy: how long chunks get, and nothing lost without overlap |
| Chunker.Split | mcp_server/core/chunker.py:136-156 | The method returns those chunks, so the two bounds hold of it |
| ChunkBound.OverflowingText | mcp_server/core/chunker.py:136-156 | For every size and every overlap in use of at least 2, a text of two lines that `split` cuts into a chunk of size + overlap - 1 |
| ChunkBound.SplitBoundExactly | mcp_server/core/chunker.py:138 | "At most size" holds for all texts if and only if windows are cut by length or the overlap in use is at most 1 |
| Chunker.Clamped | mcp_server/core/chunker.py:149-150 | The overlap in use is the one given, cut to half the size in use and never below zero |
| RecencyOrder.AdmitKeepsNewest | mcp_server/core/redact.py:434-455 | One use of a bounded least-recently-used order keeps the newest distinct keys |
| RecencyOrder.HeldExactly | mcp_server/core/redact.py:434-455 | A key is held exactly when fewer than the bound of other keys were used since |
| RedactMemo.NextCoherent | mcp_server/core/redact.py:431-455 | Order and values stay in step and within 2000 entries |
| RedactMemo.HitsExactly | mcp_server/core/redact.py:431-455 | A request hits if and only if it was made since the owned domains last changed with fewer than 2000 different ones after it |
| RedactMemo.AnswerWasTrue | mcp_server/core/redact.py:431-455 | Every answer is the uncached chain's under the owned domains of now and the registry of an earlier or present request for it |
| RedactMemo.FreshWhileRegistryStays | mcp_server/core/redact.py:57-69 | With the registry unchanged since the last clear a hit and a fresh computation agree |
| RedactMemo.FreshExactly | mcp_server/core/redact.py:431-455 | No run ever gives a stale answer if and only if the chain does not read the registry |
| RedactMemo.AnswerFromSource | mcp_server/core/redact.py:431-455 | Every answer is the chain's under the owned domains of now and the registry at the event it was computed at, which the events alone determine |
| RedactMemo.LayersRunInOrder | mcp_server/core/redact.py:401-415 | Credentials are stripped always and first; then come e-mail, IP, domain and location layers, each behind its own switch, the last not in forensic payloads, and a raising layer is skipped |
| RedactMemo.FreshCallExactly | mcp_server/core/redact.py:431-455 | One call is answered as a fresh computation would be, whatever the layers do, if and only if it bypasses the memo, runs no layer behind layer 1, or finds the registry as it was at that event |
| RedactMemo.Redactor.ApplyLayers | mcp_server/core/redact.py:439-449 | The loop with its skipped and raising layers computes the chain |
| RedactMemo.Redactor.RedactString | mcp_server/core/redact.py:419-455 | The method is the machine's step and answer, bypassing the memo for empty and over-long strings |
| RedactMemo.Redactor.SetOwnedDomains | mcp_server/core/redact.py:57-69 | Changing the owned domains empties the memo |
| RedactWalk.StripHides | mcp_server/core/redact.py:290-305 | Under `raw`, any two documents alike outside what layer 1 removes give the same output |
| RedactWalk.WalkHides | mcp_server/core/redact.py:457-509 | Under the masking policies so do they when every mask that comes before layer 1 respects it |
| RedactWalk.AnsweredExactly | mcp_server/core/redact.py:369-393 | Which requests are answered, by switches and token |
| RedactWalk.StringFieldExactly | mcp_server/core/redact.py:457-504 | What every string field becomes: an identity mask, or the layers' text, or that text masked where `protect_victim` finds the victim |
| RedactWalk.PlainTextExactly | mcp_server/core/redact.py:399-455 | Text that is no field goes through the layers, and through layer 1 alone when raw |
| RedactWalk.NestedFieldExactly | mcp_server/core/redact.py:476-479 | A nested value is walked at its own path, as payload inside a payload |
| RedactWalk.ListsAreTransparent | mcp_server/core/redact.py:502-507 | List items are treated as if they stood in the place of the list |
| RedactWalk.AgentNameExactly | mcp_server/core/redact.py:486-488 | Of an agent `protect_victim` hides the name and nothing else |
| RedactWalk.OneCharacterIsHidden | mcp_server/core/redact.py:218-222 | A name of one character is hidden whole |
| RedactWalk.ForensicPathExactly | mcp_server/core/redact.py:146-148 | Which paths are attacker payloads |
| RedactWalk.CredentialsAreMarked | mcp_server/core/redact.py:461-463 | Under every policy a field at a credential path is the marker |
| RedactWalk.AnswersKeepShape | mcp_server/core/redact.py:457-509 | Every answer has the keys, lengths and numbers of the document |
| RedactWalk.SwitchesDecide | mcp_server/core/redact.py:362-398 | Where layer 1 has something to remove from the fields a switched-on mask rewrites first, a request hides it in all documents if and only if it is raw, or refused, or switches the domain, location and identity masks off |
| RedactWalk.PasswordRuleMerges | mcp_server/core/redact.py:464-475 | One rule in layer 1 that takes out a password is enough for that, under all options |
| RedactWalk.NothingMaskedFirstHides | mcp_server/core/redact.py:464-475 | With the domain, location and identity masks off it always does |
| RedactWalk.LocationKeepsTail | mcp_server/core/redact.py:471-475 | A shortened location ends in its last path segment |
| RedactWalk.LocationShowsSecret | mcp_server/core/redact.py:471-475 | Locations that layer 1 would make equal give different answers, each with the end of what it would have removed |
| RedactWalk.HeaderTailShows | mcp_server/core/redact.py:471-475 | A basic-auth header with a slash in its base64 text keeps the part behind it |
| RedactWalk.IdentityShowsSecret | mcp_server/core/redact.py:464-467 | At an identity path the first and last characters of a secret show |
| RedactWalk.DomainShows | mcp_server/core/redact.py:468-470 | Domains that layer 1 would make equal give different answers, each with what the mask keeps |
| LabelSplits.PlacementIsBalanced | scripts/build_label_corpus.py:123-127 | Each non-seed placement of count c leaves its split at load/share at most (rows placed before + 3c) / (sum of shares) |
| LabelSplits.AllocationIsGreedy | scripts/build_label_corpus.py:116-127 | With at least three techniques the first three seed train, val and test; every other one goes where it leaves the split emptiest against max(1, 70/15/15 per cent), the first of equals |
| LabelSplits.TacticPlanIs | scripts/build_label_corpus.py:115 | Techniques are taken with their exact row counts, most rows first and in dictionary order among equals |
| LabelSplits.LexIsDictionaryOrder | scripts/build_label_corpus.py:115 | The order of names is dictionary order |
| LabelSplits.PlannedAt | scripts/build_label_corpus.py:117-127 | Each technique has the split the allocation gave it |
| LabelSplits.TacticsByFirstRow | scripts/build_label_corpus.py:108-110 | Tactics come in the order of their first rows |
| LabelSplits.LastTacticDecides | scripts/build_label_corpus.py:112-127 | A technique in several tactics goes where the last of them puts it |
| LabelSplits.EverySplitIsSeeded | scripts/build_label_corpus.py:118-122 | A tactic with at least three techniques has rows in all three splits |
| LabelSplits.SingleTacticsAgree | scripts/build_label_corpus.py:236-237 | One tactic for each technique gives the condition the other rows need |
| LabelSplits.OrderFreeExactly | scripts/build_label_corpus.py:103-104 | Shuffling rows never changes a split if and only if tactics sharing a technique agree on it |
| LabelSplits.SharedTechniqueDependsOnOrder | scripts/build_label_corpus.py:112-127 | Four rows on which the order decides |
| LabelSplits.CountRows | scripts/build_label_corpus.py:108-110 | The dictionaries hold each tactic in first-seen order with exact row counts |
| LabelSplits.SortedItems | scripts/build_label_corpus.py:115 | The list is the tactic's techniques by (-count, technique), whatever order they came in |
| LabelSplits.AllocateBy | scripts/build_label_corpus.py:117-127 | The loop computes the plan of one tactic |
| LabelSplits.AssignSplits | scripts/build_label_corpus.py:88-131 | Every row gets the split chosen for its technique, so no technique is in two splits; nothing else in a row changes |
| ForecastStore.Cap | mcp_server/core/forecast_store.py:125 | The cap is the configured one, 200,000 when none is, and one when that is negative |
| ForecastStore.TrimDeterminedExactly | mcp_server/core/forecast_store.py:132-135 | Trimming has one outcome if and only if no kept row ties with a dropped one |
| ForecastStore.StaysExactly | mcp_server/core/forecast_store.py:132-135 | A row is certain to stay if and only if fewer than the cap of others are as new |
| ForecastStore.GoesExactly | mcp_server/core/forecast_store.py:132-135 | A row is certain to go if and only if the cap of others are newer |
| ForecastStore.OneOutcomeExactly | mcp_server/core/forecast_store.py:132-135 | Trimming has one outcome if and only if each row is one or the other |
| ForecastStore.TrimOfTrim | mcp_server/core/forecast_store.py:126-135 | Two batches leave what one batch of both may leave, ties or not |
| ForecastStore.BatchesCommute | mcp_server/core/forecast_store.py:115-137 | With distinct timestamps A then B, B then A, and both together leave the same rows |
| ForecastStore.ReappendExactly | mcp_server/core/forecast_store.py:117-121 | Re-appending is certain to change nothing if and only if no re-appended missing row ties with a stored one |
| ForecastStore.ReportsGainExactly | mcp_server/core/forecast_store.py:115-137 | The number reported is certain to be the rows the table gains if and only if each batch row not stored has fewer than the cap of rows as new in table and batch |
| ForecastStore.ReportsTooManyExactly | mcp_server/core/forecast_store.py:115-137 | It is certain to be too large if and only if the batch rows not stored, with the rows newer than one of them, are more than the cap |
| ForecastStore.ReappendReports | mcp_server/core/forecast_store.py:115-137 | Re-appending trimmed rows that tie with no stored one changes nothing, and reports the truth if and only if all of them are still stored |
| ForecastStore.CountsCompose | mcp_server/core/forecast_store.py:159-179 | Counts have one outcome, later values win, and two calls leave what one call with both lists would |
| ForecastStore.CountsAreLatest | mcp_server/core/forecast_store.py:171-174 | Each bucket left has the value of the last row for it, or the one it had before |
| ForecastStore.CountsAreNewest | mcp_server/core/forecast_store.py:175-178 | The buckets left are the newest, as many as the cap allows |
| ForecastStore.Trim | mcp_server/core/forecast_store.py:132-135 | The DELETE leaves the newest rows up to the cap |
| ForecastStore.Store.AppendObservations | mcp_server/core/forecast_store.py:115-137 | Leaves newest rows of the union and answers the number of rows not stored before, which is what the table gained when they had room and more when they were crowded out; an empty list does not even trim |
| ForecastStore.Store.UpsertCounts | mcp_server/core/forecast_store.py:159-179 | Replaces buckets in order, trims to the newest, and answers the length of the list |
| StableSort.SortRefines | mcp_server/core/memory_store.py:473-475 | A stable pass refines the order the list already had |
| StableSort.OrderedIsUnique | mcp_server/core/memory_store.py:468-476 | A strictly ordered list is fixed by its elements |

## Left out

- SQLite I/O errors, file modes, WAL, schema migration, and the disabled store: every statement succeeds, so the `unavailable` and `disabled` statuses do not appear.
- Columns no branch reads (`entities`, `confidence`, `case_id`, `occurred_at`, `subject_kind`), and the display-only fields of recall views.
- MemoryStore.MemoryDb.RecordUnit: the message of a refusal is reduced to its kind; `get_unit`, `memory_stats` and `clear_memory_store` add only direct reads and a file removal.
- The reading of a `Retry-After` text as a number, and a header that reads as NaN, which the code would accept as a delay.
- The length of the jittered back-off, connection pools and DNS: a sleep only lets other calls act.
- PageRank.PersonalizedPagerank: floating-point rounding is not modelled, so the claim about settling is about exact reals; alpha outside [0, 1] and negative personalisation are outside the statement.
- The graph cache, STIX edges, cluster analysis and `suspicion_rank`, which sorts and truncates the scores proved here.
- JsonDepth.GuardIsExact: bodies are taken as UTF-8; `json.loads` also decodes UTF-16 and UTF-32, where the bytes of a character can look like a quote to the scanner, and such bodies are outside the statement.
- The number grammar and what the parser rejects: a scalar is any run of bytes that holds no bracket, quote, backslash or separator.
- The lock of the limiter: `allow` is one atomic step.
- Regular expressions as such: sentence ends, white space and line ends are written out as character tests; the redaction patterns, hostname and path tests are arbitrary functions.
- The resolution of the redaction policy from arguments, parameters and environment, and the parsing of the owned-domain list.
- LabelSplits.PlacementIsBalanced: shares are exact reals, so a tie that floating point would break differently is out of scope.
- ForecastStore.Store.AppendObservations: the float conversion of timestamps is not modelled, so two stamps are equal only if their values are.
- Network clients, LangGraph routing, report rendering, evaluation metrics, tool gating, key handling and the other stores: they would add only direct case splits.
