/** In-memory metrics: counters keyed by tuples, kept in insertion-ordered dictionaries. */
module Metrics {
  import opened Wrappers
  import opened Text
  import opened Dicts
  import JsonText

  datatype RequestKey = RequestKey(route: string, verb: string, status: string)
  datatype ErrorKey = ErrorKey(route: string, status: string, code: string)
  datatype FailureKey = FailureKey(model: string, code: string)

  /** The contents of the eight dictionaries. */
  datatype Ledger = Ledger(
    requestsTotal: Dict<RequestKey, int>, latencyTotal: Dict<RequestKey, real>, latencyMax: Dict<RequestKey, real>,
    httpErrors: Dict<ErrorKey, int>, tokens: Dict<string, int>, generationErrors: Dict<FailureKey, int>,
    streamErrors: Dict<string, int>, streamCancellations: Dict<string, int>)

  const EMPTY_LEDGER := Ledger([], [], [], [], [], [], [], [])

  datatype Event =
    | Request(route: string, verb: string, statusCode: int, durationMs: real)
    | GeneratedText(model: string, content: string)
    | HttpError(route: string, statusCode: int, code: string)
    | GenerationError(model: string, code: string)
    | StreamError(model: string)
    | StreamCancellation(model: string)

  function Bump<K(==)>(d: Dict<K, int>, k: K, n: int): Dict<K, int> {
    Put(d, k, GetOr(d, k, 0) + n)
  }

  function MaxReal(a: real, b: real): real {
    if a < b then b else a
  }

  function KeyOf(route: string, verb: string, statusCode: int): RequestKey {
    RequestKey(route, verb, JsonText.IntText(statusCode))
  }

  /** The effect of one record call. */
  function Record(l: Ledger, e: Event): Ledger {
    match e
    case Request(route, verb, statusCode, durationMs) =>
      var key := KeyOf(route, verb, statusCode);
      var bounded := MaxReal(durationMs, 0.0);
      l.(requestsTotal := Bump(l.requestsTotal, key, 1),
         latencyTotal := Put(l.latencyTotal, key, GetOr(l.latencyTotal, key, 0.0) + bounded),
         latencyMax := Put(l.latencyMax, key, MaxReal(GetOr(l.latencyMax, key, 0.0), bounded)))
    case GeneratedText(model, content) => l.(tokens := Bump(l.tokens, model, Words(content)))
    case HttpError(route, statusCode, code) =>
      l.(httpErrors := Bump(l.httpErrors, ErrorKey(route, JsonText.IntText(statusCode), code), 1))
    case GenerationError(model, code) => l.(generationErrors := Bump(l.generationErrors, FailureKey(model, code), 1))
    case StreamError(model) => l.(streamErrors := Bump(l.streamErrors, model, 1))
    case StreamCancellation(model) => l.(streamCancellations := Bump(l.streamCancellations, model, 1))
  }

  function RecordAll(events: seq<Event>): Ledger {
    if events == [] then EMPTY_LEDGER
    else Record(RecordAll(events[..|events| - 1]), events[|events| - 1])
  }

  lemma RecordAllSnoc(events: seq<Event>, e: Event)
    ensures RecordAll(events + [e]) == Record(RecordAll(events), e)
  {
    assert (events + [e])[..|events|] == events;
  }

  // ----- Invariants over every run -----

  ghost predicate SameKeys(l: Ledger) {
    && Keys(l.requestsTotal) == Keys(l.latencyTotal) == Keys(l.latencyMax)
    && Distinct(l.requestsTotal) && Distinct(l.latencyTotal) && Distinct(l.latencyMax)
  }

  lemma RecordKeepsKeys(l: Ledger, e: Event)
    requires SameKeys(l)
    ensures SameKeys(Record(l, e))
  {
    hide Put;
    hide Get;
    hide Keys;
    hide Distinct;
    if e.Request? {
      var key := KeyOf(e.route, e.verb, e.statusCode);
      var n := GetOr(l.requestsTotal, key, 0) + 1;
      var total := GetOr(l.latencyTotal, key, 0.0) + MaxReal(e.durationMs, 0.0);
      var max := MaxReal(GetOr(l.latencyMax, key, 0.0), MaxReal(e.durationMs, 0.0));
      KeysPut(l.requestsTotal, key, n);
      KeysPut(l.latencyTotal, key, total);
      KeysPut(l.latencyMax, key, max);
      DistinctPut(l.requestsTotal, key, n);
      DistinctPut(l.latencyTotal, key, total);
      DistinctPut(l.latencyMax, key, max);
    }
  }

  /** The three request dictionaries always have the same keys, in the same order. */
  lemma {:induction false} KeysAgree(events: seq<Event>)
    ensures SameKeys(RecordAll(events))
  {
    if events != [] {
      hide SameKeys;
      hide Record;
      KeysAgree(events[..|events| - 1]);
      RecordKeepsKeys(RecordAll(events[..|events| - 1]), events[|events| - 1]);
    }
  }

  predicate IsRequestFor(e: Event, key: RequestKey) {
    e.Request? && e.route == key.route && e.verb == key.verb && JsonText.IntText(e.statusCode) == key.status
  }

  /** How many request records carry the key. */
  function RequestCount(events: seq<Event>, key: RequestKey): nat {
    if events == [] then 0
    else RequestCount(events[..|events| - 1], key) + if IsRequestFor(events[|events| - 1], key) then 1 else 0
  }

  /** The sum of their durations, negative ones counting as zero. */
  function DurationSum(events: seq<Event>, key: RequestKey): real {
    if events == [] then 0.0
    else
      var e := events[|events| - 1];
      DurationSum(events[..|events| - 1], key) + if IsRequestFor(e, key) then MaxReal(e.durationMs, 0.0) else 0.0
  }

  /** The largest of their durations. */
  function DurationMax(events: seq<Event>, key: RequestKey): real {
    if events == [] then 0.0
    else
      var e := events[|events| - 1];
      MaxReal(DurationMax(events[..|events| - 1], key), if IsRequestFor(e, key) then e.durationMs else 0.0)
  }

  lemma RequestUpdates(l: Ledger, e: Event, key: RequestKey)
    ensures var l' := Record(l, e);
      var bounded := if IsRequestFor(e, key) then MaxReal(e.durationMs, 0.0) else 0.0;
      && GetOr(l'.requestsTotal, key, 0) == GetOr(l.requestsTotal, key, 0) + (if IsRequestFor(e, key) then 1 else 0)
      && GetOr(l'.latencyTotal, key, 0.0) == GetOr(l.latencyTotal, key, 0.0) + bounded
      && GetOr(l'.latencyMax, key, 0.0) ==
           if IsRequestFor(e, key) then MaxReal(GetOr(l.latencyMax, key, 0.0), bounded)
           else GetOr(l.latencyMax, key, 0.0)
  {
    hide Put;
    hide Get;
    if e.Request? {
      var k := KeyOf(e.route, e.verb, e.statusCode);
      var bounded := MaxReal(e.durationMs, 0.0);
      GetPut(l.requestsTotal, k, GetOr(l.requestsTotal, k, 0) + 1, key);
      GetPut(l.latencyTotal, k, GetOr(l.latencyTotal, k, 0.0) + bounded, key);
      GetPut(l.latencyMax, k, MaxReal(GetOr(l.latencyMax, k, 0.0), bounded), key);
    }
  }

  /** Every key's three entries are the count, the sum and the maximum of its records. */
  lemma {:induction false} EntriesAreTotals(events: seq<Event>, key: RequestKey)
    ensures var l := RecordAll(events);
      && GetOr(l.requestsTotal, key, 0) == RequestCount(events, key)
      && GetOr(l.latencyTotal, key, 0.0) == DurationSum(events, key)
      && GetOr(l.latencyMax, key, 0.0) == DurationMax(events, key)
  {
    if events != [] {
      hide Record;
      hide GetOr;
      hide IsRequestFor;
      var before, e := events[..|events| - 1], events[|events| - 1];
      EntriesAreTotals(before, key);
      DurationMaxNonNegative(before, key);
      RequestUpdates(RecordAll(before), e, key);
    }
  }

  lemma {:induction false} DurationMaxNonNegative(events: seq<Event>, key: RequestKey)
    ensures DurationMax(events, key) >= 0.0
  {
    if events != [] {
      DurationMaxNonNegative(events[..|events| - 1], key);
    }
  }

  ghost predicate LatencyBounded(count: int, total: real, max: real) {
    0 <= count && 0.0 <= max <= total <= count as real * max
  }

  lemma OneMoreDuration(count: int, total: real, max: real, d: real)
    requires LatencyBounded(count, total, max) && d >= 0.0
    ensures LatencyBounded(count + 1, total + d, MaxReal(max, d))
  {
    var m := MaxReal(max, d);
    assert count as real * max <= count as real * m;
    assert (count + 1) as real * m == count as real * m + m;
  }

  lemma {:induction false} DurationsBounded(events: seq<Event>, key: RequestKey)
    ensures LatencyBounded(RequestCount(events, key), DurationSum(events, key), DurationMax(events, key))
  {
    if events != [] {
      hide LatencyBounded;
      var before, e := events[..|events| - 1], events[|events| - 1];
      DurationsBounded(before, key);
      DurationMaxNonNegative(before, key);
      if IsRequestFor(e, key) {
        OneMoreDuration(RequestCount(before, key), DurationSum(before, key), DurationMax(before, key),
                        MaxReal(e.durationMs, 0.0));
      }
    }
  }

  /** For every key: 0 <= max <= total <= count * max. */
  lemma LatencyBounds(events: seq<Event>, key: RequestKey)
    ensures var l := RecordAll(events);
      LatencyBounded(GetOr(l.requestsTotal, key, 0), GetOr(l.latencyTotal, key, 0.0), GetOr(l.latencyMax, key, 0.0))
  {
    hide LatencyBounded;
    EntriesAreTotals(events, key);
    DurationsBounded(events, key);
  }

  /** The counts of all keys together number the request records. */
  function CountSum<K>(d: Dict<K, int>): int {
    if d == [] then 0 else d[0].value + CountSum(d[1..])
  }

  lemma {:induction false} CountSumBump<K>(d: Dict<K, int>, k: K, n: int)
    ensures CountSum(Bump(d, k, n)) == CountSum(d) + n
  {
    if d != [] && d[0].key != k {
      CountSumBump(d[1..], k, n);
    }
  }

  function Requests(events: seq<Event>): nat {
    if events == [] then 0
    else Requests(events[..|events| - 1]) + if events[|events| - 1].Request? then 1 else 0
  }

  lemma {:induction false} CountsSumToCalls(events: seq<Event>)
    ensures CountSum(RecordAll(events).requestsTotal) == Requests(events)
  {
    if events != [] {
      hide Bump;
      var before, e := events[..|events| - 1], events[|events| - 1];
      CountsSumToCalls(before);
      if e.Request? {
        CountSumBump(RecordAll(before).requestsTotal, KeyOf(e.route, e.verb, e.statusCode), 1);
      }
    }
  }

  /** An entry of one of the other five dictionaries. */
  datatype Counter =
    | Errors(key: ErrorKey)
    | Tokens(model: string)
    | Failures(failure: FailureKey)
    | StreamErrors(model: string)
    | StreamCancellations(model: string)

  function EntryOf(l: Ledger, c: Counter): int {
    match c
    case Errors(key) => GetOr(l.httpErrors, key, 0)
    case Tokens(model) => GetOr(l.tokens, model, 0)
    case Failures(key) => GetOr(l.generationErrors, key, 0)
    case StreamErrors(model) => GetOr(l.streamErrors, model, 0)
    case StreamCancellations(model) => GetOr(l.streamCancellations, model, 0)
  }

  /** What a record call means for an entry. */
  function Weight(e: Event, c: Counter): nat {
    match c
    case Errors(key) =>
      if e.HttpError? && key == ErrorKey(e.route, JsonText.IntText(e.statusCode), e.code) then 1 else 0
    case Tokens(model) => if e.GeneratedText? && e.model == model then Words(e.content) else 0
    case Failures(key) => if e.GenerationError? && key == FailureKey(e.model, e.code) then 1 else 0
    case StreamErrors(model) => if e == StreamError(model) then 1 else 0
    case StreamCancellations(model) => if e == StreamCancellation(model) then 1 else 0
  }

  function TotalWeight(events: seq<Event>, c: Counter): nat {
    if events == [] then 0 else TotalWeight(events[..|events| - 1], c) + Weight(events[|events| - 1], c)
  }

  lemma BumpAdds<K>(d: Dict<K, int>, k: K, n: int, j: K)
    ensures GetOr(Bump(d, k, n), j, 0) == GetOr(d, j, 0) + if j == k then n else 0
  {
    GetPut(d, k, GetOr(d, k, 0) + n, j);
  }

  lemma RecordAdds(l: Ledger, e: Event, c: Counter)
    ensures EntryOf(Record(l, e), c) == EntryOf(l, c) + Weight(e, c)
  {
    hide Bump;
    hide GetOr;
    hide Words;
    hide JsonText.IntText;
    match (e, c)
    case (HttpError(route, status, code), Errors(key)) =>
      BumpAdds(l.httpErrors, ErrorKey(route, JsonText.IntText(status), code), 1, key);
    case (GeneratedText(model, content), Tokens(m)) => BumpAdds(l.tokens, model, Words(content), m);
    case (GenerationError(model, code), Failures(key)) =>
      BumpAdds(l.generationErrors, FailureKey(model, code), 1, key);
    case (StreamError(model), StreamErrors(m)) => BumpAdds(l.streamErrors, model, 1, m);
    case (StreamCancellation(model), StreamCancellations(m)) => BumpAdds(l.streamCancellations, model, 1, m);
    case _ =>
  }

  /** Every entry of the other five dictionaries is what its record calls add up to. */
  lemma {:induction false} CountersAreTotals(events: seq<Event>, c: Counter)
    ensures EntryOf(RecordAll(events), c) == TotalWeight(events, c)
  {
    if events != [] {
      hide Record;
      hide EntryOf;
      hide Weight;
      CountersAreTotals(events[..|events| - 1], c);
      RecordAdds(RecordAll(events[..|events| - 1]), events[|events| - 1], c);
    } else {
      assert RecordAll([]) == EMPTY_LEDGER;
    }
  }

  // ----- The middleware -----

  /** What happens to the metrics while the application serves: a response passes the middleware,
      which records it and its error code if it has one, or a handler or stream records something else. */
  datatype Activity =
    | Response(route: string, verb: string, statusCode: int, durationMs: real, errorCode: string)
    | Handler(event: Event)

  predicate FromHandler(e: Event) {
    !e.Request? && !e.HttpError?
  }

  function EventsOf(a: Activity): seq<Event> {
    match a
    case Handler(e) => [e]
    case Response(route, verb, statusCode, durationMs, errorCode) =>
      [Request(route, verb, statusCode, durationMs)]
      + if errorCode != "" then [HttpError(route, statusCode, errorCode)] else []
  }

  function EventsOfAll(activities: seq<Activity>): seq<Event> {
    if activities == [] then []
    else EventsOfAll(activities[..|activities| - 1]) + EventsOf(activities[|activities| - 1])
  }

  function RecordActivity(l: Ledger, a: Activity): Ledger {
    match a
    case Handler(e) => Record(l, e)
    case Response(route, verb, statusCode, durationMs, errorCode) =>
      var l' := Record(l, Request(route, verb, statusCode, durationMs));
      if errorCode != "" then Record(l', HttpError(route, statusCode, errorCode)) else l'
  }

  lemma RecordAllActivity(events: seq<Event>, a: Activity)
    ensures RecordAll(events + EventsOf(a)) == RecordActivity(RecordAll(events), a)
  {
    hide RecordAll;
    hide Record;
    match a
    case Handler(e) => RecordAllSnoc(events, e);
    case Response(route, verb, statusCode, durationMs, errorCode) =>
      var request := Request(route, verb, statusCode, durationMs);
      RecordAllSnoc(events, request);
      if errorCode != "" {
        RecordAllSnoc(events + [request], HttpError(route, statusCode, errorCode));
        assert events + EventsOf(a) == events + [request] + [HttpError(route, statusCode, errorCode)];
      } else {
        assert events + EventsOf(a) == events + [request];
      }
  }

  /** Requests for a route and status, summed over methods. */
  function RequestsFor(d: Dict<RequestKey, int>, route: string, status: string): int {
    if d == [] then 0
    else
      (if d[0].key.route == route && d[0].key.status == status then d[0].value else 0)
      + RequestsFor(d[1..], route, status)
  }

  /** Errors for a route and status, summed over codes. */
  function ErrorsFor(d: Dict<ErrorKey, int>, route: string, status: string): int {
    if d == [] then 0
    else
      (if d[0].key.route == route && d[0].key.status == status then d[0].value else 0)
      + ErrorsFor(d[1..], route, status)
  }

  lemma {:induction false} RequestsForBump(d: Dict<RequestKey, int>, k: RequestKey, route: string, status: string)
    ensures RequestsFor(Bump(d, k, 1), route, status)
         == RequestsFor(d, route, status) + if k.route == route && k.status == status then 1 else 0
  {
    if d != [] && d[0].key != k {
      RequestsForBump(d[1..], k, route, status);
    }
  }

  lemma {:induction false} ErrorsForBump(d: Dict<ErrorKey, int>, k: ErrorKey, route: string, status: string)
    ensures ErrorsFor(Bump(d, k, 1), route, status)
         == ErrorsFor(d, route, status) + if k.route == route && k.status == status then 1 else 0
  {
    if d != [] && d[0].key != k {
      ErrorsForBump(d[1..], k, route, status);
    }
  }

  predicate IsCleanResponse(a: Activity, route: string, status: string) {
    a.Response? && a.route == route && JsonText.IntText(a.statusCode) == status && a.errorCode == ""
  }

  /** Responses with the route and status that carried no error code. */
  function CleanResponses(activities: seq<Activity>, route: string, status: string): int {
    if activities == [] then 0
    else
      CleanResponses(activities[..|activities| - 1], route, status)
      + if IsCleanResponse(activities[|activities| - 1], route, status) then 1 else 0
  }

  /** Requests for a route and status that are in excess of the errors. */
  function Excess(l: Ledger, route: string, status: string): int {
    RequestsFor(l.requestsTotal, route, status) - ErrorsFor(l.httpErrors, route, status)
  }

  lemma ActivityExcess(l: Ledger, a: Activity, route: string, status: string)
    requires a.Handler? ==> FromHandler(a.event)
    ensures Excess(RecordActivity(l, a), route, status)
         == Excess(l, route, status) + if IsCleanResponse(a, route, status) then 1 else 0
  {
    hide Bump;
    hide RequestsFor;
    hide ErrorsFor;
    hide JsonText.IntText;
    if a.Response? {
      RequestsForBump(l.requestsTotal, KeyOf(a.route, a.verb, a.statusCode), route, status);
      ErrorsForBump(l.httpErrors, ErrorKey(a.route, JsonText.IntText(a.statusCode), a.errorCode), route, status);
    }
  }

  /** Errors over all codes never exceed requests over all methods; the difference is exactly the
      responses without an error code. */
  lemma {:induction false} ErrorsWithinRequests(activities: seq<Activity>, route: string, status: string)
    requires forall i :: 0 <= i < |activities| && activities[i].Handler? ==> FromHandler(activities[i].event)
    ensures Excess(RecordAll(EventsOfAll(activities)), route, status) == CleanResponses(activities, route, status) >= 0
  {
    if activities != [] {
      hide RecordAll;
      hide RecordActivity;
      hide Excess;
      hide IsCleanResponse;
      var before, a := activities[..|activities| - 1], activities[|activities| - 1];
      ErrorsWithinRequests(before, route, status);
      RecordAllActivity(EventsOfAll(before), a);
      ActivityExcess(RecordAll(EventsOfAll(before)), a, route, status);
    } else {
      assert RecordAll([]) == EMPTY_LEDGER;
    }
  }

  // ----- The metrics object -----

  datatype LatencyRow = LatencyRow(key: RequestKey, count: int, totalMs: real, maxMs: real)

  /** What `snapshot` returns, one row per dictionary entry. */
  datatype Snapshot = Snapshot(
    requestsTotal: Dict<RequestKey, int>, requestLatencyMs: seq<LatencyRow>, tokensGenerated: Dict<string, int>,
    httpErrors: Dict<ErrorKey, int>, generationErrors: Dict<FailureKey, int>,
    streamErrors: Dict<string, int>, streamCancellations: Dict<string, int>)

  /** With agreeing keys, looking up the other two dictionaries by a key of the second never misses,
      and finds their entries at the same place. */
  lemma LookupsAlign(l: Ledger, i: nat)
    requires SameKeys(l) && i < |l.latencyTotal|
    ensures |l.requestsTotal| == |l.latencyTotal| == |l.latencyMax| && l.requestsTotal[i].key == l.latencyTotal[i].key
    ensures Get(l.requestsTotal, l.latencyTotal[i].key) == Some(l.requestsTotal[i].value)
    ensures Get(l.latencyMax, l.latencyTotal[i].key) == Some(l.latencyMax[i].value)
  {
    assert Keys(l.requestsTotal)[i] == Keys(l.latencyTotal)[i] == Keys(l.latencyMax)[i];
    GetAt(l.requestsTotal, i);
    GetAt(l.latencyMax, i);
  }

  class InMemoryMetrics {
    var requestsTotal: Dict<RequestKey, int>
    var requestLatencyMsTotal: Dict<RequestKey, real>
    var requestLatencyMsMax: Dict<RequestKey, real>
    var httpErrorsTotal: Dict<ErrorKey, int>
    var tokensGeneratedTotal: Dict<string, int>
    var backendGenerationErrorsTotal: Dict<FailureKey, int>
    var streamErrorsTotal: Dict<string, int>
    var streamCancellationsTotal: Dict<string, int>
    /** Every record call ever made. */
    ghost var history: seq<Event>

    constructor ()
      ensures Valid() && history == []
    {
      requestsTotal, requestLatencyMsTotal, requestLatencyMsMax := [], [], [];
      httpErrorsTotal, tokensGeneratedTotal, backendGenerationErrorsTotal := [], [], [];
      streamErrorsTotal, streamCancellationsTotal, history := [], [], [];
    }

    function View(): Ledger
      reads this
    {
      Ledger(requestsTotal, requestLatencyMsTotal, requestLatencyMsMax, httpErrorsTotal, tokensGeneratedTotal,
             backendGenerationErrorsTotal, streamErrorsTotal, streamCancellationsTotal)
    }

    ghost predicate Valid()
      reads this
    {
      View() == RecordAll(history)
    }

    method RecordRequest(route: string, verb: string, statusCode: int, durationMs: real)
      requires Valid()
      modifies this
      ensures Valid() && history == old(history) + [Request(route, verb, statusCode, durationMs)]
    {
      hide RecordAll;
      hide Bump;
      hide GetOr;
      hide Put;
      hide KeyOf;
      hide MaxReal;
      var key := KeyOf(route, verb, statusCode);
      requestsTotal := Bump(requestsTotal, key, 1);
      var boundedDuration := MaxReal(durationMs, 0.0);
      requestLatencyMsTotal :=
        Put(requestLatencyMsTotal, key, GetOr(requestLatencyMsTotal, key, 0.0) + boundedDuration);
      requestLatencyMsMax :=
        Put(requestLatencyMsMax, key, MaxReal(GetOr(requestLatencyMsMax, key, 0.0), boundedDuration));
      RecordAllSnoc(history, Request(route, verb, statusCode, durationMs));
      history := history + [Request(route, verb, statusCode, durationMs)];
    }

    method RecordGeneratedText(model: string, content: string)
      requires Valid()
      modifies this
      ensures Valid() && history == old(history) + [GeneratedText(model, content)]
    {
      var count := Words(content);
      tokensGeneratedTotal := Bump(tokensGeneratedTotal, model, count);
      RecordAllSnoc(history, GeneratedText(model, content));
      history := history + [GeneratedText(model, content)];
    }

    method RecordHttpError(route: string, statusCode: int, code: string)
      requires Valid()
      modifies this
      ensures Valid() && history == old(history) + [HttpError(route, statusCode, code)]
    {
      var key := ErrorKey(route, JsonText.IntText(statusCode), code);
      httpErrorsTotal := Bump(httpErrorsTotal, key, 1);
      RecordAllSnoc(history, HttpError(route, statusCode, code));
      history := history + [HttpError(route, statusCode, code)];
    }

    method RecordBackendGenerationError(model: string, code: string)
      requires Valid()
      modifies this
      ensures Valid() && history == old(history) + [GenerationError(model, code)]
    {
      var key := FailureKey(model, code);
      backendGenerationErrorsTotal := Bump(backendGenerationErrorsTotal, key, 1);
      RecordAllSnoc(history, GenerationError(model, code));
      history := history + [GenerationError(model, code)];
    }

    method RecordStreamError(model: string)
      requires Valid()
      modifies this
      ensures Valid() && history == old(history) + [StreamError(model)]
    {
      streamErrorsTotal := Bump(streamErrorsTotal, model, 1);
      RecordAllSnoc(history, StreamError(model));
      history := history + [StreamError(model)];
    }

    method RecordStreamCancellation(model: string)
      requires Valid()
      modifies this
      ensures Valid() && history == old(history) + [StreamCancellation(model)]
    {
      streamCancellationsTotal := Bump(streamCancellationsTotal, model, 1);
      RecordAllSnoc(history, StreamCancellation(model));
      history := history + [StreamCancellation(model)];
    }

    /** The part of the middleware that touches the metrics. */
    method RecordResponse(route: string, verb: string, statusCode: int, durationMs: real, errorCode: string)
      requires Valid()
      modifies this
      ensures Valid()
      ensures history == old(history) + EventsOf(Response(route, verb, statusCode, durationMs, errorCode))
    {
      RecordRequest(route, verb, statusCode, durationMs);
      if errorCode != "" {
        RecordHttpError(route, statusCode, errorCode);
      }
    }

    /** Every lookup succeeds, so a snapshot never raises; each latency row joins the three entries
        that stand at the same place. */
    method TakeSnapshot() returns (s: Snapshot)
      requires Valid()
      ensures s.requestsTotal == requestsTotal && s.tokensGenerated == tokensGeneratedTotal
      ensures s.httpErrors == httpErrorsTotal && s.generationErrors == backendGenerationErrorsTotal
      ensures s.streamErrors == streamErrorsTotal && s.streamCancellations == streamCancellationsTotal
      ensures |s.requestLatencyMs| == |requestsTotal| == |requestLatencyMsTotal| == |requestLatencyMsMax|
      ensures forall i :: 0 <= i < |requestsTotal| ==>
                s.requestLatencyMs[i] == LatencyRow(requestsTotal[i].key, requestsTotal[i].value,
                                                    requestLatencyMsTotal[i].value, requestLatencyMsMax[i].value)
    {
      hide Get;
      hide RecordAll;
      KeysAgree(history);
      assert |Keys(requestsTotal)| == |Keys(requestLatencyMsTotal)| == |Keys(requestLatencyMsMax)|;
      hide SameKeys;
      var rows := [];
      for i := 0 to |requestLatencyMsTotal|
        invariant |requestsTotal| == |requestLatencyMsTotal| == |requestLatencyMsMax|
        invariant |rows| == i
        invariant forall j :: 0 <= j < i ==>
                    rows[j] == LatencyRow(requestsTotal[j].key, requestsTotal[j].value,
                                          requestLatencyMsTotal[j].value, requestLatencyMsMax[j].value)
      {
        var e := requestLatencyMsTotal[i];
        LookupsAlign(View(), i);
        rows := rows + [LatencyRow(e.key, Get(requestsTotal, e.key).value, e.value,
                                   Get(requestLatencyMsMax, e.key).value)];
      }
      return Snapshot(requestsTotal, rows, tokensGeneratedTotal, httpErrorsTotal, backendGenerationErrorsTotal,
                      streamErrorsTotal, streamCancellationsTotal);
    }
  }
}
