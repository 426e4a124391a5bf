# Verification model of mac-llm-ops-lab

This project models the side-effect-free cores of the LLM operations lab in Dafny 4.11 and proves what
they promise over whole runs, on all inputs.

- **Batched backend** (`Batching.dfy`, `BatchingLaws.dfy`): the fake batched backend as an object with a
  load/close life cycle, a prompt cache, ten counters and an append-only log, tied to a ghost history of
  calls. Proved: token conservation, what the cache remembers, the log as the explanation of every
  counter, and re-batching of any request list into any partition.
- **JSON and Server-Sent Events** (`JsonText.dfy`, `JsonDocuments.dfy`, `Sse.dfy`): the JSON text of
  `json.dumps` and `json.loads` (RFC 8259; string escapes of its section 7) and exactly which texts are read,
  the event lines an application stream emits (section 9.2 of the WHATWG HTML Living Standard), and the line
  reader of the OpenAI-compatible backend on any line.
- **Event stream** (`Streaming.dfy`, `StreamLaws.dfy`, `Serving.dfy`): the stream generator as an object
  driven by an arbitrary consumer over an arbitrary backend, its protocol, its cancellation accounting,
  the round trip through its text, and the accounting across backend, application and metrics.
- **Metrics** (`Metrics.dfy`): the in-memory counters and their agreement over every sequence of calls.
- **Exposition text** (`Exposition.dfy`, `Samples.dfy`): the reader for Prometheus samples, its label
  split and line grammar against declarative readings of the patterns, round trips and concatenation.
- **Benchmark statistics** (`BenchmarkStats.dfy`): nearest-rank percentiles and the summary, over exact
  numbers.
- **Unit of work** (`UnitOfWork.dfy`, `UnitOfWorkLaws.dfy`): the fake unit of work with real aliasing
  between repositories and working tables, and isolation over every interleaving.
- **Canonical records** (`Paths.dfy`, `Fields.dfy`, `BenchmarkManifest.dfy`, `RuntimeGuard.dfy`,
  `RuntimeArtifacts.dfy`, `Ordering.dfy`, `EvidenceBundle.dfy`): path reading and writing, validating
  builders as retractions onto canonical form, the memory guard, and the way from a preflight plan to an
  execution record and its evidence index.
- **Router** (`Cluster.dfy`): least-queue-depth routing and the manifest's checks on a decision.
- `Text.dfy`, `Dicts.dfy` and `Wrappers.dfy` hold Python's `str` operations, insertion-ordered
  dictionaries, and the result types that stand for raised exceptions.

A character is a Unicode scalar value. Numbers are exact: counters are unbounded as in Python, and
floating point values are reals or keep their literal text.

Some properties that one might expect turn out false of the code. For each there is a lemma with a concrete
input that fails, and one with the exact condition under which the property holds:

- `rollback()` inside an active context of the fake unit of work discards nothing, unlike the SQLAlchemy
  one, which rolls its session back: a later `commit()` publishes the writes
  (`UnitOfWorkLaws.RollbackThenCommitPublishes`; exactly when: `UnitOfWorkLaws.RollbackDiscardsExactly`).
- The memory ceiling is compared with the rounded total, which fails both ways. A plan above its ceiling can
  be allowed (`RuntimeGuard.OverCeilingAllowed`), and one within it can be refused
  (`RuntimeGuard.WithinCeilingRefused`). `RuntimeGuard.CeilingExactly` says which totals pass any ceiling,
  `RuntimeGuard.CeilingFailures` which ceilings admit which failure; a ceiling of whole thousandths never
  refuses a plan within it (`RuntimeGuard.CeilingInThousandths`).
- The lookahead split of a label list is the in-quote split only on texts with paired quotes, or without
  a comma (`Exposition.UnclosedQuote`; exactly when: `Exposition.SplitRefinesScan`).
- The streamed token count is not the word count of the text: it exceeds it by the words that run across
  chunks (`StreamLaws.SplitWordCountedTwice`; by exactly how much: `StreamLaws.StreamedTokens`).
- The execution record keeps the texts of its directory and its log as they are written, and the index
  copies both, so paths of an index need not be in normal form: either text alone can keep a doubled slash
  (`EvidenceBundle.RawDirStays`, `EvidenceBundle.RawLogStays`; exactly when:
  `EvidenceBundle.IndexNormalExactly`). Listed evidence files are always in normal form.
- A sample need not read back from its rendered text: a quote at the end of a label value is lost
  (`Samples.QuoteIsLost`), and without quotes it does exactly when name and value fit the grammar, the label
  keys are distinct and plain, and no label holds a closing brace or a line break
  (`Samples.SampleReadsBackExactly`).
- Routing can depend on the order of the nodes, when ids are repeated (`Cluster.OrderMatters`; exactly when:
  `Cluster.RoutePermuted`).

One fact about the emitted text needs no condition: whatever made a backend's stream end, a reader of the
drained text gets the same chunks from it (`StreamLaws.EndingIsInvisible`). A cancellation also passes to the
consumer as an exception, and may show in the transport, which is not part of this model.

## Model

| member | source | states |
|---|---|---|
| Text.WordsConcat | src/mac_llm_ops_lab/observability.py:112-113 | the token count `len(text.split())` of a concatenation is the sum of the two counts, less one exactly when a word runs across the joint |
| Text.WordsAcrossSpace | src/mac_llm_ops_lab/batching.py:144-145 | word count is additive across any inserted white space character, for all texts |
| Text.WordsAreStarts | src/mac_llm_ops_lab/observability.py:112-113 | splitting into words and counting the places where a word starts agree |
| Text.SpacesExactly | src/mac_llm_ops_lab/observability.py:112-113 | white space is 29 code points, and the line breaks are ten of them |
| Text.TrimExactly | src/mac_llm_ops_lab/backend_contracts.py:459 | trimming takes away characters to be dropped at both ends, and every one of them |
| Batching.Answer | src/mac_llm_ops_lab/batching.py:69-73 | a call raises exactly when it is not accepted, and a call that raises changes no state |
| Batching.BatchMetrics.Add | src/mac_llm_ops_lab/batching.py:97-119 | one accepted batch updates the ten counters and appends its row to the log |
| Batching.FakeBatchedBackend.constructor | src/mac_llm_ops_lab/batching.py:28-33 | a new backend is in the state of the empty history |
| Batching.FakeBatchedBackend.Load | src/mac_llm_ops_lab/batching.py:35-37 | the object stays in the state its history of calls determines: only the life-cycle flags change |
| Batching.FakeBatchedBackend.Close | src/mac_llm_ops_lab/batching.py:39-40 | the object stays in the state its history of calls determines: cache and metrics survive |
| Batching.FakeBatchedBackend.GenerateMany | src/mac_llm_ops_lab/batching.py:69-125 | every call, accepted or rejected, answers as its history demands and leaves the state of the longer history |
| Batching.FakeBatchedBackend.ServeBatch | src/mac_llm_ops_lab/batching.py:75-125 | hits, misses, prefilled and saved tokens are judged against the cache before the batch; then every active prompt is cached |
| Batching.FakeBatchedBackend.Respond | src/mac_llm_ops_lab/batching.py:121-125 | the loop answers every active request in order and adds every prompt to the cache |
| Batching.FakeBatchedBackend.GenerateOne | src/mac_llm_ops_lab/batching.py:48-58 | generating one text is a batch of one request; it raises when not ready or for another model |
| BatchingLaws.AcceptedExactly | src/mac_llm_ops_lab/batching.py:35-43 | after any history a batch is accepted exactly when the last load or close was a load and every request names the backend's model; a rejected batch changes nothing |
| BatchingLaws.EveryRequestCounted | src/mac_llm_ops_lab/batching.py:75-77 | served and cancelled requests together number the requests of all accepted batches |
| BatchingLaws.AnswersUncancelled | src/mac_llm_ops_lab/batching.py:75-125 | an accepted batch has one response for each request that is not cancelled; the n-th answers the n-th of them |
| BatchingLaws.CancelledExactly | src/mac_llm_ops_lab/batching.py:75-119 | after any history the requests total counts the uncancelled requests of accepted batches, the cancelled total the cancelled ones, and the cache holds exactly the prompts of uncancelled ones |
| BatchingLaws.CancelledIsInvisible | src/mac_llm_ops_lab/batching.py:75-119 | without a cancelled request a batch has the same responses and cache, and the same counters but for the cancelled total |
| BatchingLaws.FakeResponseWords | src/mac_llm_ops_lab/batching.py:144-145 | a response has the words of the model id, two more, and the words of the prompt, for all texts |
| BatchingLaws.TokenConservation | src/mac_llm_ops_lab/batching.py:82-107 | after any history decode tokens = prefill tokens + saved tokens + requests * (words of the model id + 2) |
| BatchingLaws.LogRefinement | src/mac_llm_ops_lab/batching.py:97-119 | after any history every total is the sum of its column of the log, the largest batch its maximum, the number of batches its length, and each row's hits and misses add up |
| BatchingLaws.LogIsAppendOnly | src/mac_llm_ops_lab/batching.py:127-141 | the observations of an earlier snapshot are a prefix of any later one's, and the cache only grows, across close and load |
| BatchingLaws.SnapshotsAround | src/mac_llm_ops_lab/batching.py:127-141 | two snapshots of a backend object around any calls hold the counters of the two histories, and the first log is a prefix of the second |
| BatchingLaws.CacheIsHistory | src/mac_llm_ops_lab/batching.py:75-91 | the cache is exactly the set of active prompts of accepted batches, and every log row measures its batch against the prompts of all earlier accepted batches |
| BatchingLaws.MissesCoverGrowth | src/mac_llm_ops_lab/batching.py:78-91 | a batch's misses cover the growth of the cache, and equal it exactly when no prompt that was not cached repeats in the batch; its prefilled words cover the growth in words, and equal it exactly when no such prompt with words repeats |
| BatchingLaws.MissesBoundCache | src/mac_llm_ops_lab/batching.py:78-91 | after any history the misses number at least the cached prompts, with equality exactly when no accepted batch repeats a not-yet-cached prompt; prefilled tokens number at least the cached prompts' words, with equality exactly when no accepted batch repeats such a prompt that has words |
| BatchingLaws.Rebatch | src/mac_llm_ops_lab/batching.py:75-125 | from any state, two batches in turn and the joined batch agree on the cache, requests, decode tokens and prefill plus saved tokens; the split gains exactly the second batch's requests whose prompts only the first brought into the cache |
| BatchingLaws.RebatchAnswers | src/mac_llm_ops_lab/batching.py:69-73 | the two batches are accepted in turn exactly when the joined one is, with the same responses |
| BatchingLaws.RebatchPartition | src/mac_llm_ops_lab/batching.py:75-125 | the same for any partition of a request list into batches: same responses and cache, and savings that differ by each batch's gain over the ones before |
| JsonText.ScanEscapedChar | src/mac_llm_ops_lab/app.py:524 | JSON unescaping undoes ASCII-only escaping of every character, with surrogate pairs beyond the basic plane |
| JsonDocuments.EscapedExactly | src/mac_llm_ops_lab/app.py:524 | how each character is written: printable ASCII as it is but for quotes and backslashes, those and five control characters by a letter, every other one by its code in lower case or a pair of codes |
| JsonText.ScanEscaped | src/mac_llm_ops_lab/app.py:524 | reading an escaped string up to its closing quote gives the string back, whatever follows |
| JsonText.ParseDumps | src/mac_llm_ops_lab/openai_compatible_backend.py:150-151 | reading undoes writing for every value, numbers with a fraction or an exponent included, whatever text follows it |
| JsonText.LoadsDumps | src/mac_llm_ops_lab/openai_compatible_backend.py:150-151 | `json.loads` of `json.dumps(v)`, with any white space around it, is `v` |
| JsonDocuments.LoadsExactly | src/mac_llm_ops_lab/openai_compatible_backend.py:150-153 | `json.loads` succeeds exactly on a document of the grammar of RFC 8259, with any white space and any escapes, and `NaN` and the infinities besides; the value is the one the document denotes, a repeated name keeping its first place and last value |
| JsonDocuments.ParseText | src/mac_llm_ops_lab/openai_compatible_backend.py:150-151 | a document is read as its value whatever follows it that does not continue a number |
| JsonText.JsonSpacesExactly | src/mac_llm_ops_lab/openai_compatible_backend.py:150-151 | the white space of JSON is four characters |
| JsonDocuments.HexDigits | src/mac_llm_ops_lab/openai_compatible_backend.py:150-151 | hexadecimal digits are read in either case |
| JsonDocuments.ScanPieces | src/mac_llm_ops_lab/openai_compatible_backend.py:150-151 | a string is read as the characters it stands for, however each is written: as itself, by a letter, by a code, or by a pair of codes |
| JsonText.DumpsPrintable | src/mac_llm_ops_lab/app.py:524 | the written text is printable ASCII, so an event never contains a line break |
| Sse.ExtractDataLine | src/mac_llm_ops_lab/openai_compatible_backend.py:144-171 | the line of every event is one line, and the reader gets the event's text from it |
| Sse.WireFields | src/mac_llm_ops_lab/app.py:508-524 | any JSON reader finds the id, object, time, model, delta, finish reason and failure of an event in its line, and the failure only in an error event |
| Sse.WireDeterminesEvent | src/mac_llm_ops_lab/app.py:508-524 | different events have different lines, whatever their ids and times |
| Sse.SplitRendered | src/mac_llm_ops_lab/app.py:524 | a rendered event splits off as its data line and a blank line, whatever follows |
| Sse.ReadRendered | src/mac_llm_ops_lab/openai_compatible_backend.py:91-94 | reading the text of any sequence of events line by line yields the non-empty texts in order and never raises |
| Sse.ContentExactly | src/mac_llm_ops_lab/openai_compatible_backend.py:154-171 | the content of any payload: its first choice's delta's content if that is a non-empty string, otherwise its reasoning content if that is one, otherwise nothing; and nothing when there is no such delta |
| Sse.ReaderExactly | src/mac_llm_ops_lab/openai_compatible_backend.py:144-163 | for any line: nothing from a line that is no data line, from the end mark and from data that is no JSON, an exception from JSON that is no object, otherwise the content of the payload |
| Sse.ReadsWritten | src/mac_llm_ops_lab/openai_compatible_backend.py:144-171 | the line of any JSON object, whoever wrote it, gives what its delta says |
| Sse.ReadsUpToFailure | src/mac_llm_ops_lab/openai_compatible_backend.py:91-94 | reading any lines gives their non-empty texts up to the first line that raises, which ends it |
| Sse.Stream | src/mac_llm_ops_lab/openai_compatible_backend.py:91-94 | the line loop yields the non-empty chunks of its lines, up to a line at which the reader raises |
| Streaming.EventStream.constructor | src/mac_llm_ops_lab/app.py:424-434 | a new generator has run nothing |
| Streaming.EventStream.Supply | src/mac_llm_ops_lab/app.py:470 | up to the role event the generator does not depend on the backend: what it will yield is settled when it is first asked |
| Streaming.EventStream.Next | src/mac_llm_ops_lab/app.py:463-505 | asking for an event makes the next step of the protocol, yields its text, and records what the step records |
| Streaming.EventStream.Await | src/mac_llm_ops_lab/app.py:470-504 | awaiting the backend yields the next content, the stop event, or the error event with its record, or is cancelled |
| Streaming.EventStream.Interrupt | src/mac_llm_ops_lab/app.py:477-484 | the handler of a cancellation records one cancellation and ends the generator |
| Streaming.EventStream.Close | src/mac_llm_ops_lab/app.py:477-505 | closing records a cancellation only at the role event or a content event |
| Streaming.EventStream.NextCancelled | src/mac_llm_ops_lab/app.py:470-484 | being cancelled while the backend is awaited records a cancellation; elsewhere it is an ordinary request |
| StreamLaws.StreamSafety | src/mac_llm_ops_lab/app.py:462-505 | for every backend and consumer the output is a prefix of role, contents, stop or error, `[DONE]`; at most one of error and cancellation is counted, once; the token count is that of the emitted contents |
| StreamLaws.CancellationExactly | src/mac_llm_ops_lab/app.py:477-484 | a cancellation is recorded exactly when some command closed or cancelled at the role or a content event, or the backend's own stream was cancelled |
| StreamLaws.ClosedBeforeStart | src/mac_llm_ops_lab/app.py:462-464 | closing before the first request runs nothing, then or later |
| StreamLaws.RecordsOnce | src/mac_llm_ops_lab/app.py:482-490 | a whole run records nothing, one stream error, or one cancellation, of its own model |
| StreamLaws.RunRecords | src/mac_llm_ops_lab/metrics.py:51-57 | a run's records raise that model's error or cancellation counter by what the run counted, and no other counter |
| StreamLaws.DrainingAdvances | src/mac_llm_ops_lab/app.py:465-505 | a consumer that only asks gets one event per request until the trace is complete, and then the end |
| StreamLaws.Drained | src/mac_llm_ops_lab/app.py:465-505 | enough requests emit the whole trace |
| StreamLaws.ReadAnyRun | src/mac_llm_ops_lab/openai_compatible_backend.py:91-94 | whatever the consumer did, a reader of the text so far gets the non-empty contents so far |
| StreamLaws.StreamRoundTrip | src/mac_llm_ops_lab/app.py:424-524 | a drained stream read line by line gives exactly the backend's non-empty chunks in order, and so the whole text, whether the backend ended normally or by an exception |
| StreamLaws.ChunkWordsExactly | src/mac_llm_ops_lab/app.py:471 | counting chunk by chunk over-counts by exactly the words that run across chunks, fewer than there are chunks |
| StreamLaws.StreamedTokens | src/mac_llm_ops_lab/app.py:463-476 | the streamed token count lies between the word count of the whole text and that plus the number of chunks less one |
| StreamLaws.SplitWordCountedTwice | src/mac_llm_ops_lab/app.py:471 | a word split over two chunks counts as two streamed tokens |
| StreamLaws.EndingIsInvisible | src/mac_llm_ops_lab/openai_compatible_backend.py:144-171 | a drained stream reads the same whether its backend finished, failed or was cancelled |
| StreamLaws.Drive | src/mac_llm_ops_lab/app.py:463-505 | a consumer issuing any commands to a stream object is given exactly the text of the run's events, a reader gets the contents from that text, and the metrics hold what the run records |
| Serving.LastUserMessage | src/mac_llm_ops_lab/app.py:311-315 | the prompt is the content of the last user message, or of the last message if there is no user message |
| Serving.FindLastUserMessage | src/mac_llm_ops_lab/app.py:311-315 | the search from the end finds that message |
| Serving.ChatCompletion | src/mac_llm_ops_lab/app.py:232-306 | a model that is not allowed is refused without touching anything; otherwise the backend gets one request and the metrics one record, and the response holds the text with its usage counts or the gateway failure |
| Serving.TokenAccounting | src/mac_llm_ops_lab/app.py:277-301 | driven only through the application, after every run of streamed, unstreamed, failed, refused and closed chats the backend's decode tokens are the metrics' generated tokens of its model plus the tokens counted by all streams |
| Serving.Application.Complete | src/mac_llm_ops_lab/app.py:276-306 | a completion on the objects is the completion of the represented world |
| Serving.Application.OpenStream | src/mac_llm_ops_lab/app.py:241-254 | opening a stream adds a fresh generator object and runs nothing |
| Serving.Application.ResumeStream | src/mac_llm_ops_lab/app.py:463-505 | resuming a stream object at its role event makes the backend object generate, and brings the world's next step |
| Serving.Application.CloseStream | src/mac_llm_ops_lab/app.py:477-484 | closing a stream object is the world's close |
| Serving.Application.Perform | src/mac_llm_ops_lab/app.py:232-306 | every operation on the objects is the operation on the world they represent |
| Serving.Drive | src/mac_llm_ops_lab/app.py:232-306 | any operations on a real backend, metrics and stream objects end in the world they determine, and the backend object's decode tokens are the metrics object's generated tokens of its model plus the tokens all stream objects counted |
| Metrics.KeysAgree | src/mac_llm_ops_lab/metrics.py:21-33 | after any sequence of record calls the three request dictionaries have the same keys in the same order |
| Metrics.EntriesAreTotals | src/mac_llm_ops_lab/metrics.py:24-33 | every key's three entries are the count, the sum and the maximum of its durations |
| Metrics.LatencyBounds | src/mac_llm_ops_lab/metrics.py:26-33 | for every key 0 <= max <= total <= count * max, over exact reals |
| Metrics.CountsSumToCalls | src/mac_llm_ops_lab/metrics.py:24-25 | the counts of all keys add up to the number of request records |
| Metrics.CountersAreTotals | src/mac_llm_ops_lab/metrics.py:35-57 | every entry of the other five dictionaries is what its record calls add up to |
| Metrics.ErrorsWithinRequests | src/mac_llm_ops_lab/app.py:137-149 | for a route and status, requests over all methods exceed errors over all codes by exactly the responses without an error code |
| Metrics.RecordAllActivity | src/mac_llm_ops_lab/app.py:137-149 | the middleware's records for one response are a request and, with an error code, an error |
| Metrics.LookupsAlign | src/mac_llm_ops_lab/metrics.py:70-84 | looking up the other two dictionaries by a latency key never misses and finds the entry at the same place |
| Metrics.InMemoryMetrics.constructor | src/mac_llm_ops_lab/metrics.py:4-19 | new metrics are those of the empty history |
| Metrics.InMemoryMetrics.RecordRequest | src/mac_llm_ops_lab/metrics.py:21-33 | the dictionaries stay those the history of record calls determines |
| Metrics.InMemoryMetrics.RecordGeneratedText | src/mac_llm_ops_lab/metrics.py:35-39 | the same, for generated text |
| Metrics.InMemoryMetrics.RecordHttpError | src/mac_llm_ops_lab/metrics.py:41-43 | the same, for an HTTP error |
| Metrics.InMemoryMetrics.RecordBackendGenerationError | src/mac_llm_ops_lab/metrics.py:45-49 | the same, for a failed generation |
| Metrics.InMemoryMetrics.RecordStreamError | src/mac_llm_ops_lab/metrics.py:51-52 | the same, for a failed stream |
| Metrics.InMemoryMetrics.RecordStreamCancellation | src/mac_llm_ops_lab/metrics.py:54-57 | the same, for a cancelled stream |
| Metrics.InMemoryMetrics.RecordResponse | src/mac_llm_ops_lab/app.py:137-149 | the middleware adds the records of one response to the history |
| Metrics.InMemoryMetrics.TakeSnapshot | src/mac_llm_ops_lab/metrics.py:59-110 | a snapshot never misses a key, and each latency row joins the entries of one key |
| Exposition.SplitRefinesScan | src/mac_llm_ops_lab/backend_contracts.py:479 | the even-quotes-ahead split equals a left-to-right in-quote split exactly on texts with paired quotes and on texts without a comma |
| Exposition.UnclosedQuote | src/mac_llm_ops_lab/backend_contracts.py:479 | a label text with an unclosed quote on which the two splits differ |
| Exposition.ParseLabels | src/mac_llm_ops_lab/backend_contracts.py:475-482 | the loop builds the dictionary of the split parts, a later key replacing an earlier one |
| Exposition.PartExactly | src/mac_llm_ops_lab/backend_contracts.py:475-482 | a part of a label list is cut at its first equals sign; white space around key and value is dropped, then quotes around the value; without an equals sign the value is empty |
| Exposition.LabelRoundTrip | src/mac_llm_ops_lab/backend_contracts.py:475-482 | reading a rendered label map returns it; values may hold commas, equals signs, braces and spaces, anything but quotes |
| Exposition.LabelsReadBackExactly | src/mac_llm_ops_lab/backend_contracts.py:475-482 | a label list without quotes reads back exactly when no key occurs twice and every key is free of commas, equals signs and white space around it |
| Exposition.NamesExactly | src/mac_llm_ops_lab/backend_contracts.py:19 | the characters of names, by their code points, and those that start one |
| Samples.NumberExactly | src/mac_llm_ops_lab/backend_contracts.py:20 | the longest-run reading of a number succeeds exactly on texts that fall into the pattern's parts in some way |
| Samples.ValueExactly | src/mac_llm_ops_lab/backend_contracts.py:20 | a value is a number, an infinity with or without a sign, or not a number |
| Samples.MatchExactly | src/mac_llm_ops_lab/backend_contracts.py:18-21 | a line yields a sample exactly when it spells it as name, optional braces, white space and value; no line spells two |
| Samples.ParseSamples | src/mac_llm_ops_lab/backend_contracts.py:456-472 | the loop collects the samples of all lines in order |
| Samples.SamplesConcat | src/mac_llm_ops_lab/backend_contracts.py:456-472 | the samples of two texts joined by a line feed are the samples of the first followed by those of the second, for all texts |
| Samples.ParseRendered | src/mac_llm_ops_lab/backend_contracts.py:462-471 | a rendered sample is one line that reads back as the sample |
| Samples.SampleReadsBackExactly | src/mac_llm_ops_lab/backend_contracts.py:456-472 | a sample without quotes in its labels reads back from its rendered text exactly when its name and value fit the grammar, its label keys are distinct and plain, and no label holds a closing brace or a line break |
| Samples.QuoteIsLost | src/mac_llm_ops_lab/backend_contracts.py:481 | a label value that loses the quote it ends with |
| Samples.TextRoundTrip | src/mac_llm_ops_lab/backend_contracts.py:456-472 | a rendered text reads back as its samples in order, with comments and blank lines anywhere |
| Samples.MissingExactly | src/mac_llm_ops_lab/backend_contracts.py:252-253 | a name is reported missing exactly when it is required and no sample has it |
| Samples.ContractExactly | src/mac_llm_ops_lab/backend_contracts.py:250-262 | the contract is met exactly when every required metric has a sample |
| Samples.AppendingKeepsContract | src/mac_llm_ops_lab/backend_contracts.py:250-257 | a required metric is missing from two texts exactly when it is from both, so adding text never fails a passed contract |
| Samples.FirstValueWins | src/mac_llm_ops_lab/backend_contracts.py:641-650 | the value of a metric is the number of its first sample, and the default when no sample has the name |
| Samples.CollectKindValues | src/mac_llm_ops_lab/backend_contracts.py:714-724 | the loop collects the value of each kind |
| Samples.KindsExactly | src/mac_llm_ops_lab/backend_contracts.py:714-724 | the value of a kind is that of the last sample with the name and the kind, and it is missing when no sample has both |
| Samples.LastKindWins | src/mac_llm_ops_lab/backend_contracts.py:714-724 | the value of a kind is that of its last sample |
| BenchmarkStats.PercentileIsNearestRank | src/mac_llm_ops_lab/backend_contracts.py:755-758 | for every non-empty list the percentile is an element, at least ceil(n * percentile) values are at most it and fewer are strictly below it |
| BenchmarkStats.PercentileMonotone | src/mac_llm_ops_lab/backend_contracts.py:755-758 | raising values pointwise never lowers the percentile |
| BenchmarkStats.PercentilePermuted | src/mac_llm_ops_lab/backend_contracts.py:755-758 | the percentile does not depend on the order of the values |
| BenchmarkStats.SortedUniqueLists | src/mac_llm_ops_lab/backend_contracts.py:737-738 | the distinct values are listed strictly increasing, each exactly once and no other |
| BenchmarkStats.SortedNamesList | src/mac_llm_ops_lab/backend_contracts.py:733-734 | the distinct names are listed strictly increasing, each exactly once and no other |
| BenchmarkStats.SummaryPermuted | src/mac_llm_ops_lab/backend_contracts.py:310-362 | no column of the summary depends on the order of the rows |
| BenchmarkStats.SummaryOfOne | src/mac_llm_ops_lab/backend_contracts.py:310-362 | the summary of one row repeats its fields, each in its own column |
| BenchmarkStats.SummaryOfJoined | src/mac_llm_ops_lab/backend_contracts.py:310-362 | over two lists of rows together counts and totals add up, averages pool by the numbers of rows, maxima are maxima, and the lists unite; with the summary of one row this determines every column but the percentile |
| BenchmarkStats.P95Exactly | src/mac_llm_ops_lab/backend_contracts.py:755-758 | the reported p95 is the latency of some row; at least 19 of 20 rows are at most as slow, and fewer than 19 of 20 are faster |
| BenchmarkStats.SlowerRowsSlowerP95 | src/mac_llm_ops_lab/backend_contracts.py:339-343 | raising every row's latency never lowers the p95, which is at most the maximum |
| UnitOfWork.PersistenceState.Clone | src/mac_llm_ops_lab/persistence/fakes.py:25-32 | a clone has the same contents in five new tables |
| UnitOfWork.Repository.Add | src/mac_llm_ops_lab/persistence/fakes.py:46-80 | adding writes into the table the repository shares with its context, in place |
| UnitOfWork.FakeUnitOfWork.constructor | src/mac_llm_ops_lab/persistence/fakes.py:87-90 | a new unit of work has empty committed tables and no context |
| UnitOfWork.FakeUnitOfWork.Enter | src/mac_llm_ops_lab/persistence/fakes.py:92-100 | a context gets fresh tables with the committed contents, shared with nobody |
| UnitOfWork.FakeUnitOfWork.Exit | src/mac_llm_ops_lab/persistence/fakes.py:102-105 | leaving ends the context and changes no table |
| UnitOfWork.FakeUnitOfWork.Commit | src/mac_llm_ops_lab/persistence/fakes.py:107-111 | committing publishes a separate copy of the working tables; outside a context it raises and changes nothing |
| UnitOfWork.FakeUnitOfWork.Rollback | src/mac_llm_ops_lab/persistence/fakes.py:113-114 | rolling back only clears the flag |
| UnitOfWork.AddThrough | src/mac_llm_ops_lab/persistence/fakes.py:46-80 | a write through any repository, current or stale, changes one context's table and nothing else the unit of work holds |
| UnitOfWork.Replay | src/mac_llm_ops_lab/persistence/fakes.py:86-114 | every interleaving of operations on the objects, with every repository ever handed out still in use, ends in the state the operations determine, with no table shared |
| UnitOfWorkLaws.CommittedIsLastCommit | src/mac_llm_ops_lab/persistence/fakes.py:107-111 | after every interleaving the committed tables are the working tables at the last commit, empty if there was none |
| UnitOfWorkLaws.LastCommitIsLast | src/mac_llm_ops_lab/persistence/fakes.py:107-111 | no operation after the last commit committed |
| UnitOfWorkLaws.StoredIsFound | src/mac_llm_ops_lab/persistence/fakes.py:35-80 | a stored record is found under its key in the table of its kind, and nothing else changes |
| UnitOfWorkLaws.StoredByKind | src/mac_llm_ops_lab/persistence/fakes.py:35-80 | each of the five kinds of record is stored in its own table under its own id: it is found there, every other id is as before, and the other four tables are untouched |
| UnitOfWorkLaws.ResultsOfOneRun | src/mac_llm_ops_lab/persistence/fakes.py:59-72 | two results of one run with different ids are both found after a commit |
| UnitOfWorkLaws.ContextReads | src/mac_llm_ops_lab/persistence/fakes.py:92-100 | from its entry on, a context holds exactly the tables committed then plus its own writes in order |
| UnitOfWorkLaws.ContextFinds | src/mac_llm_ops_lab/persistence/fakes.py:39-40 | a lookup finds the context's own last write under the key, otherwise what was committed at entry |
| UnitOfWorkLaws.LookUp | src/mac_llm_ops_lab/persistence/fakes.py:39-40 | a repository object of a context, after any operations on the objects, finds that record |
| UnitOfWorkLaws.StaleWriteInvisible | src/mac_llm_ops_lab/persistence/fakes.py:36-48 | a write through a repository of an ended context shows nowhere else, whatever happens afterwards |
| UnitOfWorkLaws.RollbackIsInvisible | src/mac_llm_ops_lab/persistence/fakes.py:113-114 | a rollback has no effect on any data, then or later |
| UnitOfWorkLaws.RollbackThenCommitPublishes | src/mac_llm_ops_lab/persistence/fakes.py:107-114 | a concrete run in which a commit publishes a write that was rolled back |
| UnitOfWorkLaws.SyncHolds | src/mac_llm_ops_lab/persistence/fakes.py:92-111 | in an active context, what is committed is what the context's tables were when it was entered or last committed |
| UnitOfWorkLaws.RollbackDiscardsExactly | src/mac_llm_ops_lab/persistence/fakes.py:107-114 | rolling back and then committing publishes nothing new exactly when, since the context was entered or last committed, its last write under every key stored the record committed under it already |
| UnitOfWorkLaws.RollbackOfEntered | src/mac_llm_ops_lab/persistence/fakes.py:92-114 | the same for a context that has not committed: its own writes since entry decide |
| Paths.ParseOfAsPosix | src/mac_llm_ops_lab/backend_contracts.py:551-555 | writing and reading are inverse on the components a relative path can have |
| Paths.ComponentsConcat | src/mac_llm_ops_lab/runtime_artifacts.py:122 | joining two texts by a slash joins their components, for all texts |
| Paths.ArtifactDirStable | src/mac_llm_ops_lab/backend_contracts.py:528-532 | an accepted artifact directory, as returned, is accepted again and returned unchanged, and lies below `artifacts/runtime` without an upward step |
| Paths.PathInsideStable | src/mac_llm_ops_lab/backend_contracts.py:535-548 | an accepted path, as returned, is accepted again and returned unchanged, and lies below the directory without an upward step |
| Paths.RelativeExactly | src/mac_llm_ops_lab/backend_contracts.py:551-555 | a path is accepted as relative exactly when it is not empty, does not start at the root, and has no upward step |
| Paths.ArtifactDirExactly | src/mac_llm_ops_lab/backend_contracts.py:528-532 | a directory is accepted exactly when it is relative, its components start with `artifacts`, `runtime` and a third one, and none steps upwards; it is returned as these components |
| Paths.PathInsideExactly | src/mac_llm_ops_lab/backend_contracts.py:535-548 | a path is accepted exactly when it is relative, its components extend the directory's without an upward step, and it has the extension asked for |
| Paths.SuffixExactly | src/mac_llm_ops_lab/backend_contracts.py:542-547 | a name has an extension exactly when it ends in it, with something but dots before it |
| Paths.ArtifactDirAccepted | src/mac_llm_ops_lab/backend_contracts.py:528-532 | every directory below `artifacts/runtime` without upward steps, in normal form, is accepted as it is |
| Paths.FileAccepted | src/mac_llm_ops_lab/backend_contracts.py:535-548 | every file directly in such a directory with the demanded extension is accepted as it is |
| BenchmarkManifest.ReadWritten | src/mac_llm_ops_lab/backend_contracts.py:401-437 | reading a written manifest gives back its parts |
| BenchmarkManifest.ValidateExactly | src/mac_llm_ops_lab/backend_contracts.py:193-223 | validation succeeds with given parts exactly when every field passes its check with that part |
| BenchmarkManifest.ValidatesExactly | src/mac_llm_ops_lab/backend_contracts.py:193-223 | parts validate exactly when the texts are not blank, the paths lie inside the artifact directory with their extensions, the host, command, ports and environment hold what they must, and the scan passed without findings |
| BenchmarkManifest.AcceptedExactly | src/mac_llm_ops_lab/backend_contracts.py:398-437 | a manifest is accepted exactly when every field holds what it must; in particular only with a scan that passed |
| BenchmarkManifest.CanonicalSays | src/mac_llm_ops_lab/backend_contracts.py:398-437 | the canonical form keeps every identifying field and object, holds the paths written out in normal form, and the three fields of the passed scan |
| BenchmarkManifest.ValidateStable | src/mac_llm_ops_lab/backend_contracts.py:193-223 | validating validated parts returns them unchanged |
| BenchmarkManifest.CanonicalIsRetraction | src/mac_llm_ops_lab/backend_contracts.py:398-437 | whenever a manifest is accepted, its canonical form is accepted and is its own canonical form |
| BenchmarkManifest.CanonicalPathsInside | src/mac_llm_ops_lab/backend_contracts.py:199-208 | the stored paths lie below the artifact directory without an upward step |
| BenchmarkManifest.CanonicalExactly | src/mac_llm_ops_lab/backend_contracts.py:398-437 | a manifest is its own canonical form exactly when it is the written form of parts that pass their checks as they are |
| BenchmarkManifest.ExampleAccepted | src/mac_llm_ops_lab/backend_contracts.py:179-223 | a complete manifest that is accepted and canonical |
| RuntimeGuard.Round3Near | src/mac_llm_ops_lab/runtime_guard.py:33-39 | rounding to thousandths moves a number by at most half a thousandth |
| RuntimeGuard.Round3Monotone | src/mac_llm_ops_lab/runtime_guard.py:33-39 | and keeps the order |
| RuntimeGuard.AllowedFits | src/mac_llm_ops_lab/runtime_guard.py:74-88 | an allowed plan's true total is at most the ceiling plus 0.0005 |
| RuntimeGuard.CeilingExactly | src/mac_llm_ops_lab/runtime_guard.py:51-88 | for any ceiling, a plan is allowed exactly when it is authorised, has no negative estimate, and its true total in thousandths lies below the middle of the ceiling's step, or on it when the step starts evenly |
| RuntimeGuard.ReasonExactly | src/mac_llm_ops_lab/runtime_guard.py:51-88 | which reason a plan gets, by its own numbers: a negative one first, then a missing authorisation, then a sum of the four estimates that does not fit the ceiling; the reported total is within 0.0005 of the sum |
| RuntimeGuard.CeilingInThousandths | src/mac_llm_ops_lab/runtime_guard.py:74-88 | a ceiling of whole thousandths never refuses an authorised plan within it |
| RuntimeGuard.CeilingFailures | src/mac_llm_ops_lab/runtime_guard.py:74-88 | some plan over a ceiling is allowed exactly when the ceiling lies in the lower half of its step, some plan within it is refused exactly when it lies in the upper half, or in the middle of an odd step |
| RuntimeGuard.OverCeilingAllowed | src/mac_llm_ops_lab/runtime_guard.py:74-88 | a concrete plan above its ceiling that is allowed |
| RuntimeGuard.WithinCeilingRefused | src/mac_llm_ops_lab/runtime_guard.py:74-88 | a concrete plan within its ceiling that is refused |
| RuntimeGuard.LoweringKeepsPermission | src/mac_llm_ops_lab/runtime_guard.py:31-39 | lowering estimates, none below zero, never revokes permission |
| RuntimeArtifacts.BuiltIsFixed | src/mac_llm_ops_lab/runtime_artifacts.py:59-86 | a built execution record is a fixed point of the canonicaliser |
| RuntimeArtifacts.CanonicalIsRetraction | src/mac_llm_ops_lab/runtime_artifacts.py:159-175 | the canonical form of an accepted record is its own canonical form |
| RuntimeArtifacts.AcceptedExactly | src/mac_llm_ops_lab/runtime_artifacts.py:159-175 | a stored record is accepted exactly when it is marked as one, its report and manifest make a record, and its own flag, as a truth value or a number that equals it, and reason are those of the report's decision; its canonical form is that record |
| RuntimeArtifacts.CanonicalExactly | src/mac_llm_ops_lab/runtime_artifacts.py:159-175 | a record is its own canonical form exactly when it was built from some report and manifest |
| RuntimeArtifacts.ExampleAccepted | src/mac_llm_ops_lab/runtime_artifacts.py:13-86 | complete evidence that makes a canonical record permitting execution |
| RuntimeArtifacts.DecisionOfReport | src/mac_llm_ops_lab/runtime_artifacts.py:227-241 | reading the report of a plan gives back the guard's decision |
| RuntimeArtifacts.ReportSays | src/mac_llm_ops_lab/runtime_guard.py:91-115 | the report holds the authorisation, every memory number under its name with the rounded total, and the message of the decision |
| RuntimeArtifacts.PreflightToRecord | src/mac_llm_ops_lab/runtime_artifacts.py:59-86 | a guard report and a manifest make a record exactly when the manifest passes its checks and the ids match; the record carries the guard's decision and is canonical |
| RuntimeArtifacts.CheckedExactly | src/mac_llm_ops_lab/runtime_artifacts.py:244-270 | a manifest passes the record's checks exactly when every field holds what it must |
| RuntimeArtifacts.RecordExactly | src/mac_llm_ops_lab/runtime_artifacts.py:59-86 | a record comes about exactly when both schemas are right, the manifest holds what it must, both name the same backend and model, and the report holds a decision; it carries that decision and both documents |
| RuntimeArtifacts.ValidateExactly | src/mac_llm_ops_lab/runtime_artifacts.py:25-56 | evidence validates to given parts exactly when every field passes its check with that part |
| RuntimeArtifacts.ValidEvidenceStable | src/mac_llm_ops_lab/runtime_artifacts.py:25-56 | validating validated evidence returns it unchanged |
| RuntimeArtifacts.WrittenMatches | src/mac_llm_ops_lab/runtime_artifacts.py:244-270 | evidence that validates passes the record's checks as it was written, too |
| RuntimeArtifacts.BuiltManifestMakesRecord | src/mac_llm_ops_lab/runtime_artifacts.py:244-270 | a built manifest passes the record's checks, and execution is permitted only if the true memory total is within 0.0005 of the ceiling |
| Ordering.SortSorts | src/mac_llm_ops_lab/runtime_artifacts.py:184 | entries with distinct keys are sorted strictly by key |
| Ordering.SortElements | src/mac_llm_ops_lab/runtime_artifacts.py:184 | sorting keeps the entries |
| Ordering.BeforeExactly | src/mac_llm_ops_lab/runtime_artifacts.py:184 | a text comes before another when it is a proper prefix of it, or has the smaller character at the first difference |
| EvidenceBundle.ValidatedEvidenceFiles | src/mac_llm_ops_lab/runtime_artifacts.py:178-195 | the loop lists the checked files in label order, or raises for the first that fails |
| EvidenceBundle.IndexIsStable | src/mac_llm_ops_lab/runtime_artifacts.py:178-212 | exactly the given labels are listed, each once and in increasing order, each with the checked path given for it, inside the artifact directory; the listed files list again as they are |
| EvidenceBundle.FilesExactly | src/mac_llm_ops_lab/runtime_artifacts.py:178-212 | files are listed exactly when every one has a label and a path below the directory without an upward step; each is listed under its label, as its path is written in normal form |
| EvidenceBundle.IndexPathsInside | src/mac_llm_ops_lab/runtime_artifacts.py:114-135 | every path an index names lies below its record's artifact directory without an upward step |
| EvidenceBundle.IndexNormalExactly | src/mac_llm_ops_lab/runtime_artifacts.py:119-135 | every path of an index is in normal form exactly when both the directory and the log, as the record's manifest holds them, are; path by path, listed files always are, the execution record's path exactly when the directory is |
| EvidenceBundle.RawDirStays | src/mac_llm_ops_lab/runtime_artifacts.py:121-122 | a record whose directory has a doubled slash: its index keeps it in the path of the execution record, and the log is in normal form all the same |
| EvidenceBundle.RawLogStays | src/mac_llm_ops_lab/runtime_artifacts.py:123 | a record with a directory in normal form whose log has a doubled slash, which its index keeps |
| EvidenceBundle.WrittenToIndex | src/mac_llm_ops_lab/runtime_artifacts.py:114-135 | from a plan and evidence that validates, as it was written, the record always comes about; its index comes about exactly when the files pass their checks, and carries the guard's decision and the paths as written |
| EvidenceBundle.PreflightToIndex | src/mac_llm_ops_lab/runtime_artifacts.py:114-135 | the same for the manifest that the builder makes, and then every path of the index is in normal form |
| Cluster.RouteIsFirstLeast | src/mac_llm_ops_lab/cluster.py:114-144 | over valid nodes, with repeated ids or not, the decision names the first eligible node that no eligible node precedes by queue depth and id, and is the fallback exactly when none is eligible |
| Cluster.RouteByLoad | src/mac_llm_ops_lab/cluster.py:114-144 | the decision sends the model to a healthy and ready node that lists it, such that no other one has a shorter queue, or an equal one and a smaller id, and names that node; it falls back exactly when there is none |
| Cluster.RouteRaisesExactly | src/mac_llm_ops_lab/cluster.py:87-121 | routing raises exactly for a blank model id, or when some node, eligible or not, has a faulty field |
| Cluster.LeastIsBest | src/mac_llm_ops_lab/cluster.py:136 | with distinct ids that node is the unique one that strictly precedes every other eligible node |
| Cluster.RouteDependsOnEligible | src/mac_llm_ops_lab/cluster.py:120-125 | the decision depends on the eligible nodes alone when ids are distinct or, more generally, when the least eligible nodes agree in backend id and URL |
| Cluster.RoutePermuted | src/mac_llm_ops_lab/cluster.py:114-144 | for any valid nodes, routing is the same for every order exactly when the least eligible nodes agree in backend id and URL |
| Cluster.OrderMatters | src/mac_llm_ops_lab/cluster.py:136 | two nodes with one id for which the order decides |
| Cluster.RouteComposes | src/mac_llm_ops_lab/cluster.py:114-144 | routing over two lists together is the better of routing over each, the left one on a tie |
| Cluster.RoutedIsAccepted | src/mac_llm_ops_lab/cluster.py:160-169 | whatever routing decides, the evidence manifest's checks accept for the same nodes |
| Cluster.RefusedExactly | src/mac_llm_ops_lab/cluster.py:290-307 | a decision is refused exactly when one of its texts is blank, its URL is not valid, or it is no fallback and names no registered node |

## Left out

- FastAPI routing, pydantic validation, lifespan, logging and OpenTelemetry spans: only counters and the output token count are kept.
- The HTTP client of the OpenAI-compatible backend and its transport framing: the reader starts from lines, as `aiter_lines` delivers them.
- `persistence/sqlalchemy.py` and the migrations: their behaviour lives in SQLAlchemy and the database.
- Reading and writing files, the indented and key-sorted JSON of stored records, argument parsing, shell scripts, fixed plans and policies.
- `release_readiness.py` and `model_catalog.py`: third-party matching, subprocesses, and a constant catalog.
- Unique ids and the clock: each event takes them as a given stamp.
- Floating point rounding: latencies, memory sizes and benchmark values are exact reals; how a number appears in a report is a parameter; the p95 index is the exact ceil(19n/20) - 1, where Python computes with the float 0.95.
- Sample values keep their literal text, and how a text becomes a number is a parameter (`_parse_float`); the active labelled values and the rows of HTTP and inference request counts are not modelled.
- Error messages: a raised ValueError keeps only the field it names.
- URL parsing in the router: which URLs are valid is a parameter.
- Node evidence reports and the per-node file lists of the cluster manifest: they repeat the checks of the evidence bundle.
- Repository listings (`list`, `list_for_run`, `list_for_model`): filters over the tables' values.
- Benchmark rows have typed fields: the checks for missing fields and for numbers, and the text of a name that is not a string, are not modelled.
- Exceptions thrown into the event generator other than a cancellation or a close, and the closing of the backend's own generator.
- JsonDocuments.LoadsExactly: lone surrogates, digits, nesting and float literals are as for JsonText.ParseDumps.
- JsonText.ParseDumps: lone surrogates are no characters here (`json.loads` accepts them); Python's limits on the digits of a number and on nesting are not modelled; a number beyond the integers is kept as its literal, so that two literals of one float differ.
- Samples.SampleReadsBackExactly: the condition is exact for labels without quotes; for labels with quotes only a failing input is given.
- Samples.NumberExactly: digits are the ASCII ones, where `\d` also matches other decimal digits.
- Serving.TokenAccounting: a consumer's cancellation during the wait for the fake backend is not among the operations, because the fake backend never suspends.
- RuntimeArtifacts.CanonicalIsRetraction: a flag may be given as a number; which literals with a fraction or an exponent equal 1 or 0 is a parameter.
- Paths.PathInsideStable: the file extension follows Python 3.14, which the Dockerfile names and which differs from earlier versions for names that end in a dot or start with several.
