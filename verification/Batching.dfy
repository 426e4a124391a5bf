/** The batched fake backend: its load/close life cycle, its prompt cache, its ten counters
    and its log of batches. */
module Batching {
  import opened Text
  import opened Wrappers

  datatype GenerationRequest = GenerationRequest(model: string, prompt: string, cancelled: bool)

  datatype BackendError = NotReady | WrongModel

  datatype Observation = Observation(
    activeBatchSize: nat, cacheHits: nat, cacheMisses: nat, prefillTokens: nat,
    decodeTokens: nat, cacheSavedTokens: nat, cancelledRequests: nat)

  datatype Counters = Counters(
    batchesTotal: nat, requestsTotal: nat, maxActiveBatchSize: nat, queueWaitMsTotal: nat,
    prefillTokensTotal: nat, decodeTokensTotal: nat, cacheHitsTotal: nat, cacheMissesTotal: nat,
    cacheSavedTokensTotal: nat, cancelledRequestsTotal: nat, observations: seq<Observation>)

  /** Everything a backend object holds besides its model id. */
  datatype State = State(loaded: bool, closed: bool, cache: set<string>, counters: Counters)

  const NO_COUNTERS := Counters(0, 0, 0, 0, 0, 0, 0, 0, 0, 0, [])
  const INITIAL := State(false, false, {}, NO_COUNTERS)

  // ----- Measuring prompts -----

  /** What is being added up over prompts: one per request, or the words of its prompt. */
  datatype Gauge = Requests | PromptWords

  function Measure(prompt: string, g: Gauge): nat {
    if g.Requests? then 1 else Words(prompt)
  }

  function Total(prompts: seq<string>, g: Gauge): nat {
    if prompts == [] then 0
    else Total(prompts[..|prompts| - 1], g) + Measure(prompts[|prompts| - 1], g)
  }

  /** The part of the total that comes from prompts in `among`. */
  function Within(prompts: seq<string>, among: set<string>, g: Gauge): (n: nat)
    ensures g.Requests? ==> n <= |prompts|
  {
    if prompts == [] then 0
    else
      var last := prompts[|prompts| - 1];
      Within(prompts[..|prompts| - 1], among, g) + if last in among then Measure(last, g) else 0
  }

  /** The part of the total that comes from prompts not in `among`. */
  function Outside(prompts: seq<string>, among: set<string>, g: Gauge): nat {
    if prompts == [] then 0
    else
      var last := prompts[|prompts| - 1];
      Outside(prompts[..|prompts| - 1], among, g) + if last in among then 0 else Measure(last, g)
  }

  function FakeResponse(model: string, prompt: string): string {
    model + " response to " + prompt
  }

  function DecodeWords(model: string, prompts: seq<string>): nat {
    if prompts == [] then 0
    else DecodeWords(model, prompts[..|prompts| - 1]) + Words(FakeResponse(model, prompts[|prompts| - 1]))
  }

  // ----- One call -----

  /** The prompts of the requests that are not cancelled, in order. */
  function ActivePrompts(requests: seq<GenerationRequest>): (prompts: seq<string>)
    ensures |prompts| <= |requests|
  {
    if requests == [] then []
    else
      var last := requests[|requests| - 1];
      ActivePrompts(requests[..|requests| - 1]) + if last.cancelled then [] else [last.prompt]
  }

  function PromptSet(prompts: seq<string>): set<string> {
    set p | p in prompts
  }

  function Responses(model: string, prompts: seq<string>): seq<string> {
    seq(|prompts|, i requires 0 <= i < |prompts| => FakeResponse(model, prompts[i]))
  }

  predicate Accepts(model: string, s: State, requests: seq<GenerationRequest>) {
    s.loaded && !s.closed && forall i :: 0 <= i < |requests| ==> requests[i].model == model
  }

  /** Hits are judged against the cache as it stood before the batch. */
  function Observe(model: string, cache: set<string>, requests: seq<GenerationRequest>): Observation {
    var prompts := ActivePrompts(requests);
    var hits := Within(prompts, cache, Requests);
    Observation(
      |prompts|, hits, |prompts| - hits, Outside(prompts, cache, PromptWords), DecodeWords(model, prompts),
      Within(prompts, cache, PromptWords), |requests| - |prompts|)
  }

  function Max(a: nat, b: nat): nat {
    if a < b then b else a
  }

  function Absorb(c: Counters, o: Observation): Counters {
    Counters(
      c.batchesTotal + 1, c.requestsTotal + o.activeBatchSize,
      Max(c.maxActiveBatchSize, o.activeBatchSize), c.queueWaitMsTotal + o.activeBatchSize,
      c.prefillTokensTotal + o.prefillTokens, c.decodeTokensTotal + o.decodeTokens,
      c.cacheHitsTotal + o.cacheHits, c.cacheMissesTotal + o.cacheMisses,
      c.cacheSavedTokensTotal + o.cacheSavedTokens, c.cancelledRequestsTotal + o.cancelledRequests,
      c.observations + [o])
  }

  /** Serving an accepted batch; the cache is filled after the batch was measured. */
  function Serve(model: string, s: State, requests: seq<GenerationRequest>): State {
    s.(cache := s.cache + PromptSet(ActivePrompts(requests)),
       counters := Absorb(s.counters, Observe(model, s.cache, requests)))
  }

  // ----- Whole runs -----

  datatype Call = Load | Close | Generate(requests: seq<GenerationRequest>)

  function Step(model: string, s: State, call: Call): State {
    match call
    case Load => s.(loaded := true, closed := false)
    case Close => s.(closed := true)
    case Generate(requests) => if Accepts(model, s, requests) then Serve(model, s, requests) else s
  }

  function Run(model: string, calls: seq<Call>): State {
    if calls == [] then INITIAL
    else Step(model, Run(model, calls[..|calls| - 1]), calls[|calls| - 1])
  }

  lemma RunSnoc(model: string, calls: seq<Call>, call: Call)
    ensures Run(model, calls + [call]) == Step(model, Run(model, calls), call)
  {
    assert (calls + [call])[..|calls|] == calls;
  }

  /** The answer to a batch after a given history: what it returns, or what it raises. */
  function Answer(model: string, s: State, requests: seq<GenerationRequest>): (r: Result<seq<string>, BackendError>)
    ensures r.Ok? <==> Accepts(model, s, requests)
    ensures r.Raised? ==> Step(model, s, Generate(requests)) == s
  {
    if !s.loaded || s.closed then Raised(NotReady)
    else if exists i :: 0 <= i < |requests| && requests[i].model != model then Raised(WrongModel)
    else Ok(Responses(model, ActivePrompts(requests)))
  }

  // ----- The backend object -----

  class BatchMetrics {
    var batchesTotal: nat
    var requestsTotal: nat
    var maxActiveBatchSize: nat
    var queueWaitMsTotal: nat
    var prefillTokensTotal: nat
    var decodeTokensTotal: nat
    var cacheHitsTotal: nat
    var cacheMissesTotal: nat
    var cacheSavedTokensTotal: nat
    var cancelledRequestsTotal: nat
    var batchObservations: seq<Observation>

    constructor ()
      ensures View() == NO_COUNTERS
    {
      batchesTotal, requestsTotal, maxActiveBatchSize, queueWaitMsTotal := 0, 0, 0, 0;
      prefillTokensTotal, decodeTokensTotal, cacheHitsTotal, cacheMissesTotal := 0, 0, 0, 0;
      cacheSavedTokensTotal, cancelledRequestsTotal, batchObservations := 0, 0, [];
    }

    /** The counter updates `generate_many` makes for one accepted batch. */
    method Add(o: Observation)
      modifies this
      ensures View() == Absorb(old(View()), o)
    {
      batchesTotal := batchesTotal + 1;
      requestsTotal := requestsTotal + o.activeBatchSize;
      maxActiveBatchSize := Max(maxActiveBatchSize, o.activeBatchSize);
      queueWaitMsTotal := queueWaitMsTotal + o.activeBatchSize;
      prefillTokensTotal := prefillTokensTotal + o.prefillTokens;
      decodeTokensTotal := decodeTokensTotal + o.decodeTokens;
      cacheHitsTotal := cacheHitsTotal + o.cacheHits;
      cacheMissesTotal := cacheMissesTotal + o.cacheMisses;
      cacheSavedTokensTotal := cacheSavedTokensTotal + o.cacheSavedTokens;
      cancelledRequestsTotal := cancelledRequestsTotal + o.cancelledRequests;
      batchObservations := batchObservations + [o];
    }

    function View(): Counters
      reads this
    {
      Counters(
        batchesTotal, requestsTotal, maxActiveBatchSize, queueWaitMsTotal, prefillTokensTotal,
        decodeTokensTotal, cacheHitsTotal, cacheMissesTotal, cacheSavedTokensTotal,
        cancelledRequestsTotal, batchObservations)
    }
  }

  /** What `batch_metrics_snapshot` returns: a copy, so later batches do not change it. */
  datatype Snapshot = Snapshot(model: string, counters: Counters)

  class FakeBatchedBackend {
    const modelId: string
    var loaded: bool
    var closed: bool
    var cache: set<string>
    const metrics: BatchMetrics
    /** Every call ever made, accepted or not. */
    ghost var history: seq<Call>

    constructor (modelId: string)
      ensures this.modelId == modelId && history == []
      ensures Valid() && fresh(metrics)
    {
      this.modelId := modelId;
      loaded, closed, cache, history := false, false, {}, [];
      metrics := new BatchMetrics();
    }

    ghost function View(): State
      reads this, metrics
    {
      State(loaded, closed, cache, metrics.View())
    }

    /** The object's state is the one its history of calls determines. */
    ghost predicate Valid()
      reads this, metrics
    {
      View() == Run(modelId, history)
    }

    method Load()
      requires Valid()
      modifies this
      ensures Valid() && history == old(history) + [Call.Load]
    {
      RunSnoc(modelId, history, Call.Load);
      loaded, closed := true, false;
      history := history + [Call.Load];
    }

    method Close()
      requires Valid()
      modifies this
      ensures Valid() && history == old(history) + [Call.Close]
    {
      RunSnoc(modelId, history, Call.Close);
      closed := true;
      history := history + [Call.Close];
    }

    function Ready(): bool
      reads this
    {
      loaded && !closed
    }

    method GenerateMany(requests: seq<GenerationRequest>) returns (answer: Result<seq<string>, BackendError>)
      requires Valid()
      modifies this, metrics
      ensures Valid() && history == old(history) + [Generate(requests)]
      ensures answer == Answer(modelId, old(View()), requests)
    {
      RunSnoc(modelId, history, Generate(requests));
      history := history + [Generate(requests)];
      if !loaded || closed {
        return Raised(NotReady);
      }
      if exists i :: 0 <= i < |requests| && requests[i].model != modelId {
        return Raised(WrongModel);
      }
      var responses := ServeBatch(requests);
      return Ok(responses);
    }

    /** The part of `generate_many` after its two checks. */
    method ServeBatch(requests: seq<GenerationRequest>) returns (responses: seq<string>)
      modifies this`cache, metrics
      ensures View() == Serve(modelId, old(View()), requests)
      ensures responses == Responses(modelId, ActivePrompts(requests))
    {
      var prompts := ActivePrompts(requests);
      var cancelledRequests := |requests| - |prompts|;
      var activeBatchSize := |prompts|;
      var cacheHits := Within(prompts, cache, Requests);
      var cacheMisses := activeBatchSize - cacheHits;
      var prefillTokens := Outside(prompts, cache, PromptWords);
      var cacheSavedTokens := Within(prompts, cache, PromptWords);
      var decodeTokens := DecodeWords(modelId, prompts);

      metrics.Add(Observation(activeBatchSize, cacheHits, cacheMisses, prefillTokens, decodeTokens,
                              cacheSavedTokens, cancelledRequests));

      responses := Respond(prompts);
    }

    /** The response loop: every prompt enters the cache, repeated or not. */
    method Respond(prompts: seq<string>) returns (responses: seq<string>)
      modifies this`cache
      ensures cache == old(cache) + PromptSet(prompts)
      ensures responses == Responses(modelId, prompts)
    {
      responses := [];
      for i := 0 to |prompts|
        invariant cache == old(cache) + PromptSet(prompts[..i])
        invariant responses == Responses(modelId, prompts[..i])
      {
        cache := cache + {prompts[i]};
        responses := responses + [FakeResponse(modelId, prompts[i])];
      }
      assert prompts[..|prompts|] == prompts;
    }

    method GenerateOne(prompt: string, model: string) returns (answer: Result<string, BackendError>)
      requires Valid()
      modifies this, metrics
      ensures Valid() && history == old(history) + [Generate([GenerationRequest(model, prompt, false)])]
      ensures answer ==
        if !old(Ready()) then Raised(NotReady)
        else if model != modelId then Raised(WrongModel)
        else Ok(FakeResponse(modelId, prompt))
    {
      var requests := [GenerationRequest(model, prompt, false)];
      var responses := GenerateMany(requests);
      assert requests[0].model == model;
      assert requests[..0] == [];
      assert ActivePrompts(requests) == [prompt];
      return if responses.Raised? then Raised(responses.error) else Ok(responses.value[0]);
    }

    function BatchMetricsSnapshot(): Snapshot
      reads this, metrics
    {
      Snapshot(modelId, metrics.View())
    }
  }
}
