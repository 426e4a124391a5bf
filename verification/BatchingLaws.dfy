/** Laws of the batched backend over whole histories of calls, and over re-batching. */
module BatchingLaws {
  import opened Text
  import opened Batching
  import opened Wrappers

  // ----- Token conservation -----

  lemma {:induction false} WithinPlusOutside(prompts: seq<string>, among: set<string>, g: Gauge)
    ensures Within(prompts, among, g) + Outside(prompts, among, g) == Total(prompts, g)
  {
    if prompts != [] {
      WithinPlusOutside(prompts[..|prompts| - 1], among, g);
    }
  }

  /** Word count is additive across the inserted spaces. */
  lemma WordsAroundTwo(a: string, first: string, second: string, b: string)
    requires OneWord(first) && OneWord(second)
    ensures Words(a + [' '] + first + [' '] + second + [' '] + b) == Words(a) + 2 + Words(b)
  {
    OneWordCounts(first);
    OneWordCounts(second);
    WordsAcrossSpace(a, ' ', first);
    WordsAcrossSpace(a + [' '] + first, ' ', second);
    WordsAcrossSpace(a + [' '] + first + [' '] + second, ' ', b);
  }

  lemma FakeResponseWords(model: string, prompt: string)
    ensures Words(FakeResponse(model, prompt)) == Words(model) + 2 + Words(prompt)
  {
    hide Words;
    var first, second := "response", "to";
    TwoWords(first, second);
    WordsAroundTwo(model, first, second, prompt);
    assert " response to " == [' '] + first + [' '] + second + [' '];
    Reassociate(model, first, second, prompt);
  }

  lemma TwoWords(first: string, second: string)
    requires first == "response" && second == "to"
    ensures OneWord(first) && OneWord(second)
  {}

  lemma Reassociate(a: string, first: string, second: string, b: string)
    ensures a + ([' '] + first + [' '] + second + [' ']) + b == a + [' '] + first + [' '] + second + [' '] + b
  {}

  lemma Distribute(a: nat, b: nat, n: nat)
    ensures (a + b) * n == a * n + b * n
  {}

  lemma {:induction false} DecodeWordsTotal(model: string, prompts: seq<string>)
    ensures DecodeWords(model, prompts) == Total(prompts, PromptWords) + |prompts| * (Words(model) + 2)
  {
    if prompts != [] {
      DecodeWordsTotal(model, prompts[..|prompts| - 1]);
      FakeResponseWords(model, prompts[|prompts| - 1]);
      Distribute(|prompts| - 1, 1, Words(model) + 2);
    }
  }

  /** Every decoded token is a prefilled or saved prompt token, or one of the `fixed` words that
      each response adds. */
  ghost predicate Conserves(c: Counters, fixed: nat) {
    c.decodeTokensTotal == c.prefillTokensTotal + c.cacheSavedTokensTotal + c.requestsTotal * fixed
  }

  lemma AbsorbConserves(c: Counters, o: Observation, fixed: nat)
    requires Conserves(c, fixed)
    requires o.decodeTokens == o.prefillTokens + o.cacheSavedTokens + o.activeBatchSize * fixed
    ensures Conserves(Absorb(c, o), fixed)
  {
    Distribute(c.requestsTotal, o.activeBatchSize, fixed);
  }

  lemma ObservationConserves(model: string, cache: set<string>, requests: seq<GenerationRequest>)
    ensures var o := Observe(model, cache, requests);
      o.decodeTokens == o.prefillTokens + o.cacheSavedTokens + o.activeBatchSize * (Words(model) + 2)
  {
    var prompts := ActivePrompts(requests);
    DecodeWordsTotal(model, prompts);
    WithinPlusOutside(prompts, cache, PromptWords);
  }

  /** Token conservation after any history of calls, accepted or rejected. */
  lemma {:induction false} TokenConservation(model: string, calls: seq<Call>)
    ensures Conserves(Run(model, calls).counters, Words(model) + 2)
  {
    if calls != [] {
      var before, last := calls[..|calls| - 1], calls[|calls| - 1];
      TokenConservation(model, before);
      var s := Run(model, before);
      if last.Generate? && Accepts(model, s, last.requests) {
        ObservationConserves(model, s.cache, last.requests);
        AbsorbConserves(s.counters, Observe(model, s.cache, last.requests), Words(model) + 2);
      }
    }
  }

  // ----- What is accepted, and what becomes of every request -----

  /** The last call that loaded or closed the backend. */
  function LastLifecycle(calls: seq<Call>): Option<Call> {
    if calls == [] then None
    else
      var last := calls[|calls| - 1];
      if last.Generate? then LastLifecycle(calls[..|calls| - 1]) else Some(last)
  }

  lemma {:induction false} ReadyExactly(model: string, calls: seq<Call>)
    ensures var s := Run(model, calls); s.loaded && !s.closed <==> LastLifecycle(calls) == Some(Load)
  {
    if calls != [] {
      hide Serve;
      ReadyExactly(model, calls[..|calls| - 1]);
      if calls[|calls| - 1].Generate? {
        ServeKeepsLifecycle(model, Run(model, calls[..|calls| - 1]), calls[|calls| - 1]);
      }
    }
  }

  lemma ServeKeepsLifecycle(model: string, s: State, call: Call)
    requires call.Generate?
    ensures var s' := Step(model, s, call); s'.loaded == s.loaded && s'.closed == s.closed
  {}

  /** A batch is accepted exactly when the last lifecycle call was a load and every request names the
      backend's model; a rejected one changes nothing. */
  lemma AcceptedExactly(model: string, calls: seq<Call>, requests: seq<GenerationRequest>)
    ensures Answer(model, Run(model, calls), requests).Ok?
      <==> LastLifecycle(calls) == Some(Load) && forall i :: 0 <= i < |requests| ==> requests[i].model == model
    ensures Answer(model, Run(model, calls), requests).Raised? ==>
      Run(model, calls + [Generate(requests)]) == Run(model, calls)
  {
    hide Run;
    ReadyExactly(model, calls);
    RunSnoc(model, calls, Generate(requests));
  }

  /** The requests of all accepted batches, cancelled or not. */
  function AcceptedRequests(model: string, calls: seq<Call>): nat {
    if calls == [] then 0
    else
      var before, last := calls[..|calls| - 1], calls[|calls| - 1];
      AcceptedRequests(model, before)
      + if last.Generate? && Accepts(model, Run(model, before), last.requests) then |last.requests| else 0
  }

  /** Every accepted request is counted once, as served or as cancelled. */
  lemma {:induction false} EveryRequestCounted(model: string, calls: seq<Call>)
    ensures var c := Run(model, calls).counters;
      c.requestsTotal + c.cancelledRequestsTotal == AcceptedRequests(model, calls)
  {
    if calls != [] {
      EveryRequestCounted(model, calls[..|calls| - 1]);
    }
  }

  // ----- Cancelled requests -----

  ghost function Places(requests: seq<GenerationRequest>, cancelled: bool): set<nat> {
    set i: nat | i < |requests| && requests[i].cancelled == cancelled
  }

  /** How many requests of a batch are cancelled, or are not. */
  ghost function CountOf(requests: seq<GenerationRequest>, cancelled: bool): nat {
    |Places(requests, cancelled)|
  }

  lemma CountNone(cancelled: bool)
    ensures CountOf([], cancelled) == 0
  {}

  lemma PlacesSnoc(front: seq<GenerationRequest>, last: GenerationRequest, cancelled: bool)
    ensures var more := if last.cancelled == cancelled then {|front|} else {};
      Places(front + [last], cancelled) == Places(front, cancelled) + more && Places(front, cancelled) !! more
  {
    var all := front + [last];
    assert all[|front|] == last && forall i :: 0 <= i < |front| ==> all[i] == front[i];
  }

  lemma CountSnoc(front: seq<GenerationRequest>, last: GenerationRequest, cancelled: bool)
    ensures CountOf(front + [last], cancelled)
         == CountOf(front, cancelled) + if last.cancelled == cancelled then 1 else 0
  {
    hide Places;
    PlacesSnoc(front, last, cancelled);
  }

  lemma {:induction false} ActiveCount(requests: seq<GenerationRequest>)
    ensures |ActivePrompts(requests)| == CountOf(requests, false)
    ensures |requests| == CountOf(requests, false) + CountOf(requests, true)
  {
    if requests != [] {
      hide CountOf;
      var front, last := requests[..|requests| - 1], requests[|requests| - 1];
      assert requests == front + [last];
      ActiveCount(front);
      CountSnoc(front, last, false);
      CountSnoc(front, last, true);
    } else {
      CountNone(false);
      CountNone(true);
    }
  }

  /** Where the prompt of an uncancelled request stands among the active ones. */
  lemma {:induction false} ActiveAt(requests: seq<GenerationRequest>, k: nat)
    requires k < |requests| && !requests[k].cancelled
    ensures var n := CountOf(requests[..k], false);
      n < |ActivePrompts(requests)| && ActivePrompts(requests)[n] == requests[k].prompt
  {
    hide CountOf;
    var front := requests[..|requests| - 1];
    ActiveCount(front);
    if k < |front| {
      ActiveAt(front, k);
      assert front[..k] == requests[..k];
    }
  }

  lemma {:induction false} ActiveSet(requests: seq<GenerationRequest>, p: string)
    ensures p in ActivePrompts(requests) <==> exists r :: r in requests && !r.cancelled && r.prompt == p
  {
    if requests != [] {
      var front, last := requests[..|requests| - 1], requests[|requests| - 1];
      assert requests == front + [last];
      ActiveSet(front, p);
    }
  }

  /** An accepted batch has one response for each request that is not cancelled; the n-th answers the n-th
      of them. */
  lemma AnswersUncancelled(model: string, s: State, requests: seq<GenerationRequest>)
    requires Answer(model, s, requests).Ok?
    ensures var responses := Answer(model, s, requests).value;
      && |responses| == CountOf(requests, false)
      && forall k :: 0 <= k < |requests| && !requests[k].cancelled ==>
           && CountOf(requests[..k], false) < |responses|
           && responses[CountOf(requests[..k], false)] == model + " response to " + requests[k].prompt
  {
    hide CountOf;
    hide ActivePrompts;
    ActiveCount(requests);
    forall k | 0 <= k < |requests| && !requests[k].cancelled
      ensures CountOf(requests[..k], false) < |ActivePrompts(requests)|
      ensures ActivePrompts(requests)[CountOf(requests[..k], false)] == requests[k].prompt
    {
      ActiveAt(requests, k);
    }
  }

  predicate IsServed(model: string, s: State, call: Call) {
    call.Generate? && Accepts(model, s, call.requests)
  }

  /** The accepted batches, with all their requests. */
  function AcceptedBatches(model: string, calls: seq<Call>): seq<seq<GenerationRequest>> {
    if calls == [] then []
    else
      var before, last := calls[..|calls| - 1], calls[|calls| - 1];
      AcceptedBatches(model, before)
      + if IsServed(model, Run(model, before), last) then [last.requests] else []
  }

  ghost function CountAll(batches: seq<seq<GenerationRequest>>, cancelled: bool): nat {
    if batches == [] then 0
    else CountAll(batches[..|batches| - 1], cancelled) + CountOf(batches[|batches| - 1], cancelled)
  }

  ghost predicate Asked(batches: seq<seq<GenerationRequest>>, p: string) {
    exists b, r :: b in batches && r in b && !r.cancelled && r.prompt == p
  }

  lemma AskedSnoc(batches: seq<seq<GenerationRequest>>, last: seq<GenerationRequest>, p: string)
    ensures Asked(batches + [last], p) <==> Asked(batches, p) || p in ActivePrompts(last)
  {
    ActiveSet(last, p);
    if Asked(batches, p) {
      var b, r :| b in batches && r in b && !r.cancelled && r.prompt == p;
      assert b in batches + [last];
    }
    if p in ActivePrompts(last) {
      var r :| r in last && !r.cancelled && r.prompt == p;
      assert last in batches + [last];
    }
  }

  lemma ServedCounts(model: string, s: State, call: Call, p: string)
    ensures var t := Step(model, s, call);
      if IsServed(model, s, call) then
        && t.counters.requestsTotal == s.counters.requestsTotal + CountOf(call.requests, false)
        && t.counters.cancelledRequestsTotal == s.counters.cancelledRequestsTotal + CountOf(call.requests, true)
        && (p in t.cache <==> p in s.cache || p in ActivePrompts(call.requests))
      else t.counters == s.counters && t.cache == s.cache
  {
    hide CountOf;
    hide ActivePrompts;
    hide Accepts;
    hide Within;
    hide Outside;
    hide DecodeWords;
    hide Max;
    if call.Generate? {
      ActiveCount(call.requests);
    }
  }

  lemma CountAllSnoc(batches: seq<seq<GenerationRequest>>, last: seq<GenerationRequest>, cancelled: bool)
    ensures CountAll(batches + [last], cancelled) == CountAll(batches, cancelled) + CountOf(last, cancelled)
  {
    hide CountOf;
    assert (batches + [last])[..|batches|] == batches;
  }

  lemma AcceptedSnoc(model: string, calls: seq<Call>)
    requires calls != []
    ensures var before, last := calls[..|calls| - 1], calls[|calls| - 1];
      && Run(model, calls) == Step(model, Run(model, before), last)
      && AcceptedBatches(model, calls) ==
         if IsServed(model, Run(model, before), last) then AcceptedBatches(model, before) + [last.requests]
         else AcceptedBatches(model, before)
  {
    hide Step;
    hide Accepts;
  }

  /** After any history the served requests are the uncancelled ones of accepted batches, the cancelled
      count is that of the cancelled ones, and the cache holds exactly the prompts of uncancelled ones. */
  lemma {:induction false} CancelledExactly(model: string, calls: seq<Call>, p: string)
    ensures var s, batches := Run(model, calls), AcceptedBatches(model, calls);
      && s.counters.requestsTotal == CountAll(batches, false)
      && s.counters.cancelledRequestsTotal == CountAll(batches, true)
      && (p in s.cache <==> Asked(batches, p))
  {
    if calls != [] {
      hide *;
      var before, last := calls[..|calls| - 1], calls[|calls| - 1];
      CancelledExactly(model, before, p);
      AcceptedSnoc(model, calls);
      var s, batches := Run(model, before), AcceptedBatches(model, before);
      ServedCounts(model, s, last, p);
      if IsServed(model, s, last) {
        ServedIsGenerate(model, s, last);
        CountAllSnoc(batches, last.requests, false);
        CountAllSnoc(batches, last.requests, true);
        AskedSnoc(batches, last.requests, p);
      }
    }
  }

  lemma ServedIsGenerate(model: string, s: State, call: Call)
    ensures IsServed(model, s, call) ==> call.Generate?
  {}

  /** A cancelled request may as well not be in the batch: without it the responses, the cache and every
      counter but that of cancelled requests are the same. */
  lemma CancelledIsInvisible(model: string, s: State, a: seq<GenerationRequest>, r: GenerationRequest,
                             b: seq<GenerationRequest>)
    requires r.cancelled
    ensures Responses(model, ActivePrompts(a + [r] + b)) == Responses(model, ActivePrompts(a + b))
    ensures var whole, rest := Serve(model, s, a + [r] + b), Serve(model, s, a + b);
      && whole.cache == rest.cache
      && whole.counters.cancelledRequestsTotal == rest.counters.cancelledRequestsTotal + 1
      && whole.counters.requestsTotal == rest.counters.requestsTotal
      && whole.counters.decodeTokensTotal == rest.counters.decodeTokensTotal
      && whole.counters.prefillTokensTotal == rest.counters.prefillTokensTotal
      && whole.counters.cacheSavedTokensTotal == rest.counters.cacheSavedTokensTotal
      && whole.counters.cacheHitsTotal == rest.counters.cacheHitsTotal
      && whole.counters.cacheMissesTotal == rest.counters.cacheMissesTotal
  {
    hide Within;
    hide Outside;
    hide DecodeWords;
    ActivePromptsConcat(a + [r], b);
    ActivePromptsConcat(a, [r]);
    ActivePromptsConcat(a, b);
    assert [r][..0] == [];
    assert ActivePrompts([r]) == [];
    assert ActivePrompts(a + [r] + b) == ActivePrompts(a + b);
  }

  // ----- The log of batches -----

  datatype Column = ActiveBatchSize | CacheHits | CacheMisses | PrefillTokens | DecodeTokens
                  | CacheSavedTokens | CancelledRequests

  function Cell(o: Observation, c: Column): nat {
    match c
    case ActiveBatchSize => o.activeBatchSize
    case CacheHits => o.cacheHits
    case CacheMisses => o.cacheMisses
    case PrefillTokens => o.prefillTokens
    case DecodeTokens => o.decodeTokens
    case CacheSavedTokens => o.cacheSavedTokens
    case CancelledRequests => o.cancelledRequests
  }

  function ColumnSum(rows: seq<Observation>, c: Column): nat {
    if rows == [] then 0 else ColumnSum(rows[..|rows| - 1], c) + Cell(rows[|rows| - 1], c)
  }

  ghost predicate IsLargest(rows: seq<Observation>, c: Column, n: nat) {
    && (forall o :: o in rows ==> Cell(o, c) <= n)
    && (rows == [] ==> n == 0)
    && (rows != [] ==> exists o :: o in rows && Cell(o, c) == n)
  }

  /** Each counter total is the sum of its column of the log. */
  ghost predicate LogExplains(c: Counters) {
    && c.batchesTotal == |c.observations|
    && c.requestsTotal == ColumnSum(c.observations, ActiveBatchSize)
    && c.queueWaitMsTotal == ColumnSum(c.observations, ActiveBatchSize)
    && IsLargest(c.observations, ActiveBatchSize, c.maxActiveBatchSize)
    && c.prefillTokensTotal == ColumnSum(c.observations, PrefillTokens)
    && c.decodeTokensTotal == ColumnSum(c.observations, DecodeTokens)
    && c.cacheHitsTotal == ColumnSum(c.observations, CacheHits)
    && c.cacheMissesTotal == ColumnSum(c.observations, CacheMisses)
    && c.cacheSavedTokensTotal == ColumnSum(c.observations, CacheSavedTokens)
    && c.cancelledRequestsTotal == ColumnSum(c.observations, CancelledRequests)
    && (forall o :: o in c.observations ==> o.cacheHits + o.cacheMisses == o.activeBatchSize)
  }

  lemma AbsorbKeepsLog(c: Counters, o: Observation)
    requires LogExplains(c) && o.cacheHits + o.cacheMisses == o.activeBatchSize
    ensures LogExplains(Absorb(c, o))
  {
    var rows := c.observations + [o];
    assert rows[..|c.observations|] == c.observations;
    var n := Max(c.maxActiveBatchSize, o.activeBatchSize);
    assert o in rows && forall p :: p in c.observations ==> p in rows;
    assert IsLargest(rows, ActiveBatchSize, n) by {
      if c.observations != [] {
        var p :| p in c.observations && Cell(p, ActiveBatchSize) == c.maxActiveBatchSize;
        assert p in rows && Cell(p, ActiveBatchSize) == p.activeBatchSize;
      }
      assert Cell(o, ActiveBatchSize) == o.activeBatchSize;
    }
  }

  lemma {:induction false} LogRefinement(model: string, calls: seq<Call>)
    ensures LogExplains(Run(model, calls).counters)
  {
    if calls != [] {
      var before, last := calls[..|calls| - 1], calls[|calls| - 1];
      LogRefinement(model, before);
      var s := Run(model, before);
      if last.Generate? && Accepts(model, s, last.requests) {
        AbsorbKeepsLog(s.counters, Observe(model, s.cache, last.requests));
      }
    }
  }

  /** An earlier snapshot's log is a prefix of any later one's, across close and load. */
  lemma {:induction false} LogIsAppendOnly(model: string, calls: seq<Call>, later: seq<Call>)
    ensures Run(model, calls).counters.observations <= Run(model, calls + later).counters.observations
    ensures Run(model, calls).cache <= Run(model, calls + later).cache
  {
    if later == [] {
      assert calls + later == calls;
    } else {
      var last := later[|later| - 1];
      LogIsAppendOnly(model, calls, later[..|later| - 1]);
      RunSnoc(model, calls + later[..|later| - 1], last);
      assert calls + later == calls + later[..|later| - 1] + [last];
    }
  }

  /** A snapshot of a backend object, any calls on it, and another snapshot: each holds the counters of
      the history up to it, and the log of the first is a prefix of the second's. */
  method SnapshotsAround(backend: FakeBatchedBackend, calls: seq<Call>) returns (before: Snapshot, after: Snapshot)
    requires backend.Valid()
    modifies backend, backend.metrics
    ensures backend.Valid() && backend.history == old(backend.history) + calls
    ensures before == Snapshot(backend.modelId, Run(backend.modelId, old(backend.history)).counters)
    ensures after == Snapshot(backend.modelId, Run(backend.modelId, old(backend.history) + calls).counters)
    ensures before.counters.observations <= after.counters.observations
  {
    hide Run;
    before := backend.BatchMetricsSnapshot();
    assert backend.View() == Run(backend.modelId, backend.history);
    for i := 0 to |calls|
      invariant backend.Valid() && backend.history == old(backend.history) + calls[..i]
    {
      match calls[i]
      case Load => backend.Load();
      case Close => backend.Close();
      case Generate(requests) => var _ := backend.GenerateMany(requests);
    }
    assert calls[..|calls|] == calls;
    assert backend.View() == Run(backend.modelId, backend.history);
    after := backend.BatchMetricsSnapshot();
    LogIsAppendOnly(backend.modelId, old(backend.history), calls);
  }

  // ----- What the cache remembers -----

  /** The active prompts of the accepted batches, in order. */
  function Batches(model: string, calls: seq<Call>): seq<seq<string>> {
    if calls == [] then []
    else
      var before, last := calls[..|calls| - 1], calls[|calls| - 1];
      Batches(model, before)
      + if last.Generate? && Accepts(model, Run(model, before), last.requests)
        then [ActivePrompts(last.requests)] else []
  }

  ghost function Seen(batches: seq<seq<string>>): set<string> {
    set b, p | b in batches && p in b :: p
  }

  lemma SeenSnoc(batches: seq<seq<string>>, prompts: seq<string>)
    ensures Seen(batches + [prompts]) == Seen(batches) + PromptSet(prompts)
  {
    forall p
      ensures p in Seen(batches + [prompts]) <==> p in Seen(batches) + PromptSet(prompts)
    {
      if p in Seen(batches) {
        var b :| b in batches && p in b;
        assert b in batches + [prompts];
      }
      if p in prompts {
        assert prompts in batches + [prompts];
      }
    }
  }

  /** A row of the log, against the batch it is about and the prompts of all earlier batches. */
  ghost predicate RowIsHistory(o: Observation, prompts: seq<string>, earlier: set<string>) {
    && o.activeBatchSize == |prompts|
    && o.cacheHits == Within(prompts, earlier, Requests) && o.cacheMisses == Outside(prompts, earlier, Requests)
    && o.cacheSavedTokens == Within(prompts, earlier, PromptWords)
    && o.prefillTokens == Outside(prompts, earlier, PromptWords)
  }

  lemma ObservedRow(model: string, cache: set<string>, requests: seq<GenerationRequest>)
    ensures RowIsHistory(Observe(model, cache, requests), ActivePrompts(requests), cache)
  {
    MissesAreOutside(ActivePrompts(requests), cache);
  }

  /** The cache is exactly the set of active prompts of accepted batches, and a batch's hits are
      its active requests whose prompt occurs in an earlier accepted batch. */
  lemma {:induction false} CacheIsHistory(model: string, calls: seq<Call>)
    ensures var s, batches := Run(model, calls), Batches(model, calls);
      && s.cache == Seen(batches)
      && |s.counters.observations| == |batches|
      && forall i :: 0 <= i < |batches| ==> RowIsHistory(s.counters.observations[i], batches[i], Seen(batches[..i]))
  {
    hide RowIsHistory;
    if calls != [] {
      var before, last := calls[..|calls| - 1], calls[|calls| - 1];
      CacheIsHistory(model, before);
      if last.Generate? && Accepts(model, Run(model, before), last.requests) {
        var batches, prompts := Batches(model, before), ActivePrompts(last.requests);
        SeenSnoc(batches, prompts);
        ObservedRow(model, Seen(batches), last.requests);
        assert forall i :: 0 <= i <= |batches| ==> (batches + [prompts])[..i] == batches[..i];
        assert batches[..|batches|] == batches;
      } else {
        assert Batches(model, calls) == Batches(model, before);
      }
    }
  }

  /** Measuring a set of prompts, each once. */
  ghost function SetTotal(prompts: set<string>, g: Gauge): nat {
    if prompts == {} then 0
    else
      var p :| p in prompts;
      SetTotal(prompts - {p}, g) + Measure(p, g)
  }

  lemma {:induction false} SetTotalInsert(prompts: set<string>, q: string, g: Gauge)
    requires q !in prompts
    ensures SetTotal(prompts + {q}, g) == SetTotal(prompts, g) + Measure(q, g)
  {
    var all := prompts + {q};
    var p :| p in all && SetTotal(all, g) == SetTotal(all - {p}, g) + Measure(p, g);
    if p == q {
      assert all - {p} == prompts;
    } else {
      SetTotalInsert(prompts - {p}, q, g);
      SetTotalInsert(prompts - {p}, p, g);
      assert all - {p} == prompts - {p} + {q};
      assert prompts - {p} + {p} == prompts;
    }
  }

  lemma {:induction false} SetTotalRequests(prompts: set<string>)
    ensures SetTotal(prompts, Requests) == |prompts|
  {
    if prompts != {} {
      var p :| p in prompts;
      SetTotalRequests(prompts - {p});
      SetTotalInsert(prompts - {p}, p, Requests);
      assert prompts - {p} + {p} == prompts;
    }
  }

  /** No prompt that the cache lacks, and that measures anything, occurs twice in the batch. */
  ghost predicate NoFreshRepeat(prompts: seq<string>, cache: set<string>, g: Gauge) {
    forall j, k :: 0 <= j < k < |prompts| && prompts[j] == prompts[k] ==>
      prompts[j] in cache || Measure(prompts[j], g) == 0
  }

  lemma NoFreshRepeatSnoc(front: seq<string>, last: string, cache: set<string>, g: Gauge)
    ensures NoFreshRepeat(front + [last], cache, g)
      <==> NoFreshRepeat(front, cache, g) && (last in cache || last !in front || Measure(last, g) == 0)
  {
    hide Measure;
    var all := front + [last];
    if NoFreshRepeat(all, cache, g) {
      forall j, k | 0 <= j < k < |front| && front[j] == front[k]
        ensures front[j] in cache || Measure(front[j], g) == 0
      {
        assert all[j] == all[k];
      }
      if last in front {
        var j :| 0 <= j < |front| && front[j] == last;
        assert all[j] == all[|front|];
      }
    }
  }

  lemma OutsideSnoc(front: seq<string>, last: string, cache: set<string>, g: Gauge)
    ensures Outside(front + [last], cache, g) == Outside(front, cache, g)
      + if last in cache then 0 else Measure(last, g)
  {
    assert (front + [last])[..|front|] == front;
  }

  lemma GrowthSnoc(front: seq<string>, last: string, cache: set<string>, g: Gauge)
    ensures SetTotal(cache + PromptSet(front + [last]), g)
         == SetTotal(cache + PromptSet(front), g) + if last in cache || last in front then 0 else Measure(last, g)
  {
    hide SetTotal;
    if last in cache || last in front {
      assert cache + PromptSet(front + [last]) == cache + PromptSet(front);
    } else {
      assert cache + PromptSet(front + [last]) == cache + PromptSet(front) + {last};
      SetTotalInsert(cache + PromptSet(front), last, g);
    }
  }

  /** A batch's misses cover the growth of the cache; they equal it exactly when the batch repeats no
      fresh prompt. For words in place of misses, only prompts that have words matter. */
  lemma {:induction false} MissesCoverGrowth(prompts: seq<string>, cache: set<string>, g: Gauge)
    ensures SetTotal(cache, g) + Outside(prompts, cache, g) >= SetTotal(cache + PromptSet(prompts), g)
    ensures SetTotal(cache, g) + Outside(prompts, cache, g) == SetTotal(cache + PromptSet(prompts), g)
      <==> NoFreshRepeat(prompts, cache, g)
  {
    hide SetTotal;
    if prompts == [] {
      assert cache + PromptSet(prompts) == cache;
    } else {
      hide NoFreshRepeat;
      hide Outside;
      hide Measure;
      var front, last := prompts[..|prompts| - 1], prompts[|prompts| - 1];
      assert prompts == front + [last];
      MissesCoverGrowth(front, cache, g);
      NoFreshRepeatSnoc(front, last, cache, g);
      OutsideSnoc(front, last, cache, g);
      GrowthSnoc(front, last, cache, g);
    }
  }

  ghost predicate NoBatchRepeatsFresh(batches: seq<seq<string>>, g: Gauge) {
    forall i :: 0 <= i < |batches| ==> NoFreshRepeat(batches[i], Seen(batches[..i]), g)
  }

  /** The misses number at least the cached prompts, with equality exactly when no accepted batch
      repeats a prompt that was not cached before it; the prefilled tokens are at least the words of the
      cached prompts, with equality exactly when no accepted batch repeats such a prompt that has words. */
  ghost predicate MissesBound(c: Counters, cache: set<string>, batches: seq<seq<string>>) {
    && c.cacheMissesTotal >= |cache|
    && (c.cacheMissesTotal == |cache| <==> NoBatchRepeatsFresh(batches, Requests))
    && c.prefillTokensTotal >= SetTotal(cache, PromptWords)
    && (c.prefillTokensTotal == SetTotal(cache, PromptWords) <==> NoBatchRepeatsFresh(batches, PromptWords))
  }

  lemma ServeKeepsBound(model: string, s: State, requests: seq<GenerationRequest>, batches: seq<seq<string>>)
    requires MissesBound(s.counters, s.cache, batches) && s.cache == Seen(batches)
    ensures var s' := Serve(model, s, requests);
      MissesBound(s'.counters, s'.cache, batches + [ActivePrompts(requests)])
  {
    hide SetTotal;
    hide NoBatchRepeatsFresh;
    hide NoFreshRepeat;
    var prompts := ActivePrompts(requests);
    var grown := s.cache + PromptSet(prompts);
    MissesCoverGrowth(prompts, s.cache, Requests);
    MissesCoverGrowth(prompts, s.cache, PromptWords);
    SetTotalRequests(s.cache);
    SetTotalRequests(grown);
    MissesAreOutside(prompts, s.cache);
    RepeatsSnoc(batches, prompts, Requests);
    RepeatsSnoc(batches, prompts, PromptWords);
  }

  lemma {:induction false} MissesBoundCache(model: string, calls: seq<Call>)
    ensures MissesBound(Run(model, calls).counters, Run(model, calls).cache, Batches(model, calls))
  {
    hide MissesBound;
    if calls == [] {
      NothingBound();
    } else {
      var before, last := calls[..|calls| - 1], calls[|calls| - 1];
      MissesBoundCache(model, before);
      var s := Run(model, before);
      if last.Generate? && Accepts(model, s, last.requests) {
        CacheIsHistory(model, before);
        ServeKeepsBound(model, s, last.requests, Batches(model, before));
      } else {
        assert Batches(model, calls) == Batches(model, before);
      }
    }
  }

  lemma NothingBound()
    ensures MissesBound(NO_COUNTERS, {}, [])
  {}

  lemma MissesAreOutside(prompts: seq<string>, cache: set<string>)
    ensures |prompts| - Within(prompts, cache, Requests) == Outside(prompts, cache, Requests)
  {
    WithinPlusOutside(prompts, cache, Requests);
    TotalRequests(prompts);
  }

  lemma {:induction false} TotalRequests(prompts: seq<string>)
    ensures Total(prompts, Requests) == |prompts|
  {
    if prompts != [] {
      TotalRequests(prompts[..|prompts| - 1]);
    }
  }

  lemma RepeatsSnoc(batches: seq<seq<string>>, prompts: seq<string>, g: Gauge)
    ensures NoBatchRepeatsFresh(batches + [prompts], g)
      <==> NoBatchRepeatsFresh(batches, g) && NoFreshRepeat(prompts, Seen(batches), g)
  {
    var all := batches + [prompts];
    assert forall i :: 0 <= i <= |batches| ==> all[..i] == batches[..i];
    assert batches[..|batches|] == batches;
    assert all[|batches|] == prompts;
    if NoBatchRepeatsFresh(all, g) {
      forall i | 0 <= i < |batches|
        ensures NoFreshRepeat(batches[i], Seen(batches[..i]), g)
      {
        assert all[i] == batches[i];
      }
    }
  }

  // ----- Re-batching -----

  lemma {:induction false} WithinConcat(a: seq<string>, b: seq<string>, among: set<string>, g: Gauge)
    ensures Within(a + b, among, g) == Within(a, among, g) + Within(b, among, g)
    ensures Outside(a + b, among, g) == Outside(a, among, g) + Outside(b, among, g)
  {
    if b == [] {
      assert a + b == a;
    } else {
      assert (a + b)[..|a + b| - 1] == a + b[..|b| - 1];
      WithinConcat(a, b[..|b| - 1], among, g);
    }
  }

  lemma {:induction false} DecodeWordsConcat(model: string, a: seq<string>, b: seq<string>)
    ensures DecodeWords(model, a + b) == DecodeWords(model, a) + DecodeWords(model, b)
  {
    if b == [] {
      assert a + b == a;
    } else {
      assert (a + b)[..|a + b| - 1] == a + b[..|b| - 1];
      DecodeWordsConcat(model, a, b[..|b| - 1]);
    }
  }

  lemma {:induction false} ActivePromptsConcat(a: seq<GenerationRequest>, b: seq<GenerationRequest>)
    ensures ActivePrompts(a + b) == ActivePrompts(a) + ActivePrompts(b)
  {
    if b == [] {
      assert a + b == a;
    } else {
      assert (a + b)[..|a + b| - 1] == a + b[..|b| - 1];
      ActivePromptsConcat(a, b[..|b| - 1]);
    }
  }

  /** A larger cache turns misses into hits, by exactly the prompts it adds. */
  lemma {:induction false} WithinLargerCache(prompts: seq<string>, cache: set<string>, more: set<string>, g: Gauge)
    ensures Within(prompts, cache + more, g) == Within(prompts, cache, g) + Within(prompts, more - cache, g)
    ensures Outside(prompts, cache, g) == Outside(prompts, cache + more, g) + Within(prompts, more - cache, g)
  {
    if prompts != [] {
      WithinLargerCache(prompts[..|prompts| - 1], cache, more, g);
    }
  }

  ghost predicate CountersGain(s: Counters, j: Counters, hits: nat, words: nat) {
    && s.requestsTotal == j.requestsTotal && s.queueWaitMsTotal == j.queueWaitMsTotal
    && s.decodeTokensTotal == j.decodeTokensTotal && s.cancelledRequestsTotal == j.cancelledRequestsTotal
    && s.cacheHitsTotal == j.cacheHitsTotal + hits && s.cacheMissesTotal + hits == j.cacheMissesTotal
    && s.cacheSavedTokensTotal == j.cacheSavedTokensTotal + words
    && s.prefillTokensTotal + words == j.prefillTokensTotal
  }

  /** Two ways of serving the same requests agree on everything but the cache's savings, where the
      split run gains `hits` requests and `words` prompt words. */
  ghost predicate SplitGains(split: State, joined: State, hits: nat, words: nat) {
    && split.loaded == joined.loaded && split.closed == joined.closed && split.cache == joined.cache
    && CountersGain(split.counters, joined.counters, hits, words)
  }

  ghost predicate ObservationsGain(first: Observation, second: Observation, joined: Observation, hits: nat,
                                   words: nat)
  {
    && first.activeBatchSize + second.activeBatchSize == joined.activeBatchSize
    && first.decodeTokens + second.decodeTokens == joined.decodeTokens
    && first.cancelledRequests + second.cancelledRequests == joined.cancelledRequests
    && first.cacheHits + second.cacheHits == joined.cacheHits + hits
    && first.cacheMisses + second.cacheMisses + hits == joined.cacheMisses
    && first.cacheSavedTokens + second.cacheSavedTokens == joined.cacheSavedTokens + words
    && first.prefillTokens + second.prefillTokens + words == joined.prefillTokens
  }

  lemma AbsorbGains(c: Counters, first: Observation, second: Observation, joined: Observation, hits: nat, words: nat)
    requires ObservationsGain(first, second, joined, hits, words)
    ensures CountersGain(Absorb(Absorb(c, first), second), Absorb(c, joined), hits, words)
  {}

  /** What a batch gains by being served after `earlier` instead of together with it. */
  function Gain(cache: set<string>, earlier: seq<GenerationRequest>, batch: seq<GenerationRequest>, g: Gauge): nat {
    Within(ActivePrompts(batch), PromptSet(ActivePrompts(earlier)) - cache, g)
  }

  lemma RebatchObservations(model: string, cache: set<string>, a: seq<GenerationRequest>, b: seq<GenerationRequest>)
    ensures ObservationsGain(
      Observe(model, cache, a), Observe(model, cache + PromptSet(ActivePrompts(a)), b), Observe(model, cache, a + b),
      Gain(cache, a, b, Requests), Gain(cache, a, b, PromptWords))
  {
    var pa, pb := ActivePrompts(a), ActivePrompts(b);
    ActivePromptsConcat(a, b);
    WithinConcat(pa, pb, cache, Requests);
    WithinConcat(pa, pb, cache, PromptWords);
    DecodeWordsConcat(model, pa, pb);
    WithinLargerCache(pb, cache, PromptSet(pa), Requests);
    WithinLargerCache(pb, cache, PromptSet(pa), PromptWords);
  }

  /** Serving two batches one after the other, against serving them as one: the gain is what the
      second batch finds cached only because the first came before it. */
  lemma Rebatch(model: string, s: State, a: seq<GenerationRequest>, b: seq<GenerationRequest>)
    ensures SplitGains(Serve(model, Serve(model, s, a), b), Serve(model, s, a + b),
                       Gain(s.cache, a, b, Requests), Gain(s.cache, a, b, PromptWords))
  {
    ActivePromptsConcat(a, b);
    assert PromptSet(ActivePrompts(a + b)) == PromptSet(ActivePrompts(a)) + PromptSet(ActivePrompts(b));
    RebatchObservations(model, s.cache, a, b);
    AbsorbGains(
      s.counters, Observe(model, s.cache, a), Observe(model, s.cache + PromptSet(ActivePrompts(a)), b),
      Observe(model, s.cache, a + b), Gain(s.cache, a, b, Requests), Gain(s.cache, a, b, PromptWords));
  }

  /** Both batches are accepted one after the other exactly when the joined batch is, and the
      responses are the same. */
  lemma RebatchAnswers(model: string, s: State, a: seq<GenerationRequest>, b: seq<GenerationRequest>)
    ensures Accepts(model, s, a + b) <==> Accepts(model, s, a) && Accepts(model, Serve(model, s, a), b)
    ensures Responses(model, ActivePrompts(a + b))
         == Responses(model, ActivePrompts(a)) + Responses(model, ActivePrompts(b))
  {
    ActivePromptsConcat(a, b);
    AcceptsConcat(model, s, a, b);
  }

  lemma AcceptsConcat(model: string, s: State, a: seq<GenerationRequest>, b: seq<GenerationRequest>)
    ensures Accepts(model, s, a + b) <==> Accepts(model, s, a) && Accepts(model, s, b)
  {
    if Accepts(model, s, a + b) {
      forall i | 0 <= i < |a|
        ensures a[i].model == model
      {
        assert (a + b)[i] == a[i];
      }
      forall i | 0 <= i < |b|
        ensures b[i].model == model
      {
        assert (a + b)[|a| + i] == b[i];
      }
    }
  }

  function Flatten<T>(parts: seq<seq<T>>): seq<T> {
    if parts == [] then [] else Flatten(parts[..|parts| - 1]) + parts[|parts| - 1]
  }

  function ServeAll(model: string, s: State, batches: seq<seq<GenerationRequest>>): State {
    if batches == [] then s
    else Serve(model, ServeAll(model, s, batches[..|batches| - 1]), batches[|batches| - 1])
  }

  function ResponsesOfAll(model: string, batches: seq<seq<GenerationRequest>>): seq<seq<string>> {
    seq(|batches|, i requires 0 <= i < |batches| => Responses(model, ActivePrompts(batches[i])))
  }

  function Gains(cache: set<string>, batches: seq<seq<GenerationRequest>>, g: Gauge): nat {
    if batches == [] then 0
    else
      var front := batches[..|batches| - 1];
      Gains(cache, front, g) + Gain(cache, Flatten(front), batches[|batches| - 1], g)
  }

  lemma SameCacheSameGain(model: string, split: State, joined: State, batch: seq<GenerationRequest>, hits: nat,
                          words: nat)
    requires SplitGains(split, joined, hits, words)
    ensures SplitGains(Serve(model, split, batch), Serve(model, joined, batch), hits, words)
  {}

  lemma SplitGainsAdd(x: State, y: State, z: State, hits: nat, words: nat, moreHits: nat, moreWords: nat)
    requires SplitGains(x, y, hits, words) && SplitGains(y, z, moreHits, moreWords)
    ensures SplitGains(x, z, hits + moreHits, words + moreWords)
  {}

  /** Any partition of a list of requests into batches yields the responses, the cache and the token
      work of the undivided batch; only the savings differ, by each batch's gain over the ones before it. */
  lemma {:induction false} RebatchPartition(model: string, s: State, batches: seq<seq<GenerationRequest>>)
    ensures SplitGains(ServeAll(model, s, batches), Serve(model, s, Flatten(batches)),
                       Gains(s.cache, batches, Requests), Gains(s.cache, batches, PromptWords))
    ensures Flatten(ResponsesOfAll(model, batches)) == Responses(model, ActivePrompts(Flatten(batches)))
  {
    if batches == [] {
      assert s.cache + PromptSet([]) == s.cache;
    } else {
      var front, last := batches[..|batches| - 1], batches[|batches| - 1];
      RebatchPartition(model, s, front);
      Rebatch(model, s, Flatten(front), last);
      RebatchAnswers(model, s, Flatten(front), last);
      var joinedFront := Serve(model, s, Flatten(front));
      SameCacheSameGain(model, ServeAll(model, s, front), joinedFront, last,
                        Gains(s.cache, front, Requests), Gains(s.cache, front, PromptWords));
      SplitGainsAdd(ServeAll(model, s, batches), Serve(model, joinedFront, last), Serve(model, s, Flatten(batches)),
                    Gains(s.cache, front, Requests), Gains(s.cache, front, PromptWords),
                    Gain(s.cache, Flatten(front), last, Requests), Gain(s.cache, Flatten(front), last, PromptWords));
      assert ResponsesOfAll(model, batches)[..|front|] == ResponsesOfAll(model, front);
    }
  }
}
