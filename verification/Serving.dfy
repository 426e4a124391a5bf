/** The chat application over the fake backend: completions, event streams, and the agreement
    between the backend's token counters and the application's. */
module Serving {
  import opened Wrappers
  import opened Text
  import opened Dicts
  import opened Batching
  import Metrics
  import Sse
  import Streaming

  datatype ChatMessage = ChatMessage(role: string, content: string)

  predicate NoUserAfter(messages: seq<ChatMessage>, i: int) {
    forall j :: 0 <= j < |messages| && i < j ==> messages[j].role != "user"
  }

  /** The content of the last user message, or of the last message when no user wrote any. */
  function LastUserMessage(messages: seq<ChatMessage>): (prompt: string)
    requires messages != []
    ensures NoUserAfter(messages, -1) ==> prompt == messages[|messages| - 1].content
    ensures forall i :: 0 <= i < |messages| && messages[i].role == "user" && NoUserAfter(messages, i) ==>
              prompt == messages[i].content
  {
    var i := LastUserIndex(messages);
    if i >= 0 then messages[i].content else messages[|messages| - 1].content
  }

  function LastUserIndex(messages: seq<ChatMessage>): (i: int)
    ensures -1 <= i < |messages|
    ensures i >= 0 ==> messages[i].role == "user"
    ensures NoUserAfter(messages, i)
  {
    if messages == [] then -1
    else if messages[|messages| - 1].role == "user" then |messages| - 1
    else LastUserIndex(messages[..|messages| - 1])
  }

  method FindLastUserMessage(messages: seq<ChatMessage>) returns (prompt: string)
    requires messages != []
    ensures prompt == LastUserMessage(messages)
  {
    var i := |messages|;
    while i > 0
      invariant 0 <= i <= |messages|
      invariant forall j :: i <= j < |messages| ==> messages[j].role != "user"
    {
      i := i - 1;
      if messages[i].role == "user" {
        return messages[i].content;
      }
    }
    return messages[|messages| - 1].content;
  }

  // ----- Completions that are not streamed -----

  datatype HttpFailure = ModelNotAllowed | BackendGenerationFailed

  datatype Completion = Completion(content: string, promptTokens: nat, completionTokens: nat, totalTokens: nat)

  predicate Allowed(allowlist: seq<string>, model: string) {
    allowlist == [] || model in allowlist
  }

  function RequestFor(model: string, prompt: string): GenerationRequest {
    GenerationRequest(model, prompt, false)
  }

  predicate Serves(modelId: string, calls: seq<Call>, model: string) {
    var s := Run(modelId, calls);
    s.loaded && !s.closed && model == modelId
  }

  /** What a completion records in the metrics. */
  function CompletionEvent(modelId: string, calls: seq<Call>, model: string, prompt: string): Metrics.Event {
    if Serves(modelId, calls, model) then Metrics.GeneratedText(model, FakeResponse(modelId, prompt))
    else Metrics.GenerationError(model, "backend_generation_failed")
  }

  method ChatCompletion(backend: FakeBatchedBackend, metrics: Metrics.InMemoryMetrics, allowlist: seq<string>,
                        model: string, messages: seq<ChatMessage>)
    returns (response: Result<Completion, HttpFailure>)
    requires messages != [] && backend.Valid() && metrics.Valid()
    modifies backend, backend.metrics, metrics
    ensures backend.Valid() && metrics.Valid()
    ensures var prompt := LastUserMessage(messages);
      if !Allowed(allowlist, model) then
        && response == Raised(ModelNotAllowed)
        && backend.history == old(backend.history) && metrics.history == old(metrics.history)
      else
        && backend.history == old(backend.history) + [Generate([RequestFor(model, prompt)])]
        && metrics.history == old(metrics.history)
           + [CompletionEvent(backend.modelId, old(backend.history), model, prompt)]
        && response ==
           if Serves(backend.modelId, old(backend.history), model) then
             var content := FakeResponse(backend.modelId, prompt);
             Ok(Completion(content, Words(prompt), Words(content), Words(prompt) + Words(content)))
           else Raised(BackendGenerationFailed)
    ensures response == Raised(ModelNotAllowed) <==> allowlist != [] && model !in allowlist
    ensures response.Ok? ==>
      metrics.history == old(metrics.history) + [Metrics.GeneratedText(model, response.value.content)]
    ensures response == Raised(BackendGenerationFailed) ==>
      metrics.history == old(metrics.history) + [Metrics.GenerationError(model, "backend_generation_failed")]
    ensures response != Raised(ModelNotAllowed) ==> (response.Ok? <==> old(backend.Ready()) && model == backend.modelId)
  {
    hide Run;
    hide Metrics.RecordAll;
    hide Words;
    if !Allowed(allowlist, model) {
      return Raised(ModelNotAllowed);
    }
    var prompt := FindLastUserMessage(messages);
    assert backend.View() == Run(backend.modelId, backend.history);
    var answer := backend.GenerateOne(prompt, model);
    if answer.Raised? {
      metrics.RecordBackendGenerationError(model, "backend_generation_failed");
      return Raised(BackendGenerationFailed);
    }
    metrics.RecordGeneratedText(model, answer.value);
    var promptTokens, completionTokens := Words(prompt), Words(answer.value);
    return Ok(Completion(answer.value, promptTokens, completionTokens, promptTokens + completionTokens));
  }

  // ----- Completions and event streams together -----

  datatype ChatStream = ChatStream(model: string, prompt: string, state: Streaming.State)

  /** The application with its backend: the calls the backend got, the records the metrics got, and
      every event stream ever opened. */
  datatype World = World(calls: seq<Call>, events: seq<Metrics.Event>, streams: seq<ChatStream>)

  datatype Operation =
    | LoadBackend
    | CloseBackend
    | Complete(model: string, messages: seq<ChatMessage>)
    | OpenStream(model: string, messages: seq<ChatMessage>)
    | ResumeStream(index: nat)
    | CloseStream(index: nat)

  /** The backend's stream yields one generated text, or raises what generating it raises. */
  function BackendScript(modelId: string, calls: seq<Call>, c: ChatStream): Streaming.Script {
    if Serves(modelId, calls, c.model) then Streaming.Script([FakeResponse(modelId, c.prompt)], Streaming.Finishes)
    else Streaming.Script([], Streaming.Fails)
  }

  /** Resuming a stream at its role event is what makes the backend generate. */
  function Resumed(modelId: string, w: World, i: nat): World
    requires i < |w.streams|
  {
    var c := w.streams[i];
    var ready := if c.state.phase.AtRole? then c.state.(pending := BackendScript(modelId, w.calls, c)) else c.state;
    var next := Streaming.Resume(ready);
    World(
      w.calls + (if c.state.phase.AtRole? then [Generate([RequestFor(c.model, c.prompt)])] else []),
      w.events + Streaming.Records(ready, next, c.model),
      w.streams[i := c.(state := next)])
  }

  /** A request without messages is not a valid one, and a model must be allowed. */
  predicate Refused(allowlist: seq<string>, model: string, messages: seq<ChatMessage>) {
    messages == [] || !Allowed(allowlist, model)
  }

  function Do(modelId: string, allowlist: seq<string>, w: World, op: Operation): World {
    match op
    case LoadBackend => w.(calls := w.calls + [Load])
    case CloseBackend => w.(calls := w.calls + [Close])
    case Complete(model, messages) =>
      if Refused(allowlist, model, messages) then w
      else
        var prompt := LastUserMessage(messages);
        w.(calls := w.calls + [Generate([RequestFor(model, prompt)])],
           events := w.events + [CompletionEvent(modelId, w.calls, model, prompt)])
    case OpenStream(model, messages) =>
      if Refused(allowlist, model, messages) then w
      else
        var state := Streaming.Start(Streaming.Script([], Streaming.Finishes));
        w.(streams := w.streams + [ChatStream(model, LastUserMessage(messages), state)])
    case ResumeStream(i) => if i < |w.streams| then Resumed(modelId, w, i) else w
    case CloseStream(i) =>
      if i < |w.streams| then
        var c := w.streams[i];
        var next := Streaming.Step(c.state, Streaming.Command.Close);
        w.(events := w.events + Streaming.Records(c.state, next, c.model), streams := w.streams[i := c.(state := next)])
      else w
  }

  function Serve(modelId: string, allowlist: seq<string>, ops: seq<Operation>): World {
    if ops == [] then World([], [], [])
    else Do(modelId, allowlist, Serve(modelId, allowlist, ops[..|ops| - 1]), ops[|ops| - 1])
  }

  // ----- Accounting -----

  function StreamedTokens(streams: seq<ChatStream>): nat {
    if streams == [] then 0
    else StreamedTokens(streams[..|streams| - 1]) + streams[|streams| - 1].state.outputTokens
  }

  lemma {:induction false} StreamedTokensUpdate(streams: seq<ChatStream>, i: nat, c: ChatStream)
    requires i < |streams|
    ensures StreamedTokens(streams[i := c]) + streams[i].state.outputTokens
         == StreamedTokens(streams) + c.state.outputTokens
  {
    var front := streams[..|streams| - 1];
    if i == |streams| - 1 {
      assert streams[i := c][..|streams| - 1] == front;
    } else {
      assert streams[i := c][..|streams| - 1] == front[i := c];
      StreamedTokensUpdate(front, i, c);
    }
  }

  /** The tokens the metrics count for a model, over completions that are not streamed. */
  function GeneratedTokens(events: seq<Metrics.Event>, model: string): int {
    GetOr(Metrics.RecordAll(events).tokens, model, 0)
  }

  lemma GeneratedTokensSnoc(events: seq<Metrics.Event>, e: Metrics.Event, model: string)
    ensures GeneratedTokens(events + [e], model) == GeneratedTokens(events, model)
      + if e.GeneratedText? && e.model == model then Words(e.content) else 0
  {
    hide Words;
    hide Put;
    hide Get;
    Metrics.RecordAllSnoc(events, e);
    hide Metrics.RecordAll;
    var l := Metrics.RecordAll(events);
    if e.GeneratedText? {
      GetPut(l.tokens, e.model, GetOr(l.tokens, e.model, 0) + Words(e.content), model);
    }
  }

  /** What one request adds to the tokens the backend has decoded. */
  lemma DecodeOne(modelId: string, calls: seq<Call>, model: string, prompt: string)
    ensures Run(modelId, calls + [Generate([RequestFor(model, prompt)])]).counters.decodeTokensTotal
      == Run(modelId, calls).counters.decodeTokensTotal
         + if Serves(modelId, calls, model) then Words(FakeResponse(modelId, prompt)) else 0
  {
    hide Words;
    hide Run;
    hide FakeResponse;
    hide ActivePrompts;
    hide DecodeWords;
    hide Within;
    hide Outside;
    hide PromptSet;
    var requests := [RequestFor(model, prompt)];
    RunSnoc(modelId, calls, Generate(requests));
    OnePrompt(requests);
    OneDecoded(modelId, [prompt]);
    assert requests[0].model == model;
  }

  lemma OnePrompt(requests: seq<GenerationRequest>)
    requires |requests| == 1 && !requests[0].cancelled
    ensures ActivePrompts(requests) == [requests[0].prompt]
  {
    assert ActivePrompts(requests[..0]) == [];
  }

  lemma OneDecoded(modelId: string, prompts: seq<string>)
    requires |prompts| == 1
    ensures DecodeWords(modelId, prompts) == Words(FakeResponse(modelId, prompts[0]))
  {
    hide Words;
    hide FakeResponse;
    assert DecodeWords(modelId, prompts[..0]) == 0;
  }

  /** The backend has been asked for everything it will yield to a stream past its role event. */
  predicate Settled(s: Streaming.State) {
    s.phase.AtContent? ==> s.pending.chunks == []
  }

  /** The backend's decoded tokens are those of the completions that were not streamed and those
      the streams have counted. */
  ghost predicate Balanced(modelId: string, w: World) {
    && Run(modelId, w.calls).counters.decodeTokensTotal
       == GeneratedTokens(w.events, modelId) + StreamedTokens(w.streams)
    && forall i :: 0 <= i < |w.streams| ==> Settled(w.streams[i].state)
  }

  lemma GeneratedTokensRecords(events: seq<Metrics.Event>, s: Streaming.State, s': Streaming.State, model: string,
                               m: string)
    ensures GeneratedTokens(events + Streaming.Records(s, s', m), model) == GeneratedTokens(events, model)
  {
    hide GeneratedTokens;
    var records := Streaming.Records(s, s', m);
    if records == [] {
      assert events + records == events;
    } else {
      GeneratedTokensSnoc(events, records[0], model);
      assert records == [records[0]];
    }
  }

  lemma CompleteBalances(modelId: string, w: World, model: string, prompt: string)
    requires Balanced(modelId, w)
    ensures Balanced(modelId, w.(calls := w.calls + [Generate([RequestFor(model, prompt)])],
                                 events := w.events + [CompletionEvent(modelId, w.calls, model, prompt)]))
  {
    hide Run;
    hide Words;
    hide GeneratedTokens;
    hide StreamedTokens;
    hide FakeResponse;
    DecodeOne(modelId, w.calls, model, prompt);
    GeneratedTokensSnoc(w.events, CompletionEvent(modelId, w.calls, model, prompt), modelId);
  }

  /** A resumed stream counts exactly what the resumption made the backend decode. */
  lemma ResumedTokens(modelId: string, w: World, i: nat)
    requires i < |w.streams| && Settled(w.streams[i].state)
    ensures var c, w' := w.streams[i], Resumed(modelId, w, i);
      && Settled(w'.streams[i].state)
      && w'.streams[i].state.outputTokens == c.state.outputTokens
         + if c.state.phase.AtRole? && Serves(modelId, w.calls, c.model)
           then Words(FakeResponse(modelId, c.prompt)) else 0
  {
    hide Serves;
    hide Words;
    hide FakeResponse;
  }

  lemma ResumeBalances(modelId: string, w: World, i: nat)
    requires Balanced(modelId, w) && i < |w.streams|
    ensures Balanced(modelId, Resumed(modelId, w, i))
  {
    hide Run;
    hide Serves;
    hide Words;
    hide FakeResponse;
    hide GeneratedTokens;
    hide StreamedTokens;
    hide Streaming.Resume;
    hide Streaming.Records;
    var c, w' := w.streams[i], Resumed(modelId, w, i);
    ResumedTokens(modelId, w, i);
    StreamedTokensUpdate(w.streams, i, w'.streams[i]);
    var ready := if c.state.phase.AtRole? then c.state.(pending := BackendScript(modelId, w.calls, c)) else c.state;
    GeneratedTokensRecords(w.events, ready, Streaming.Resume(ready), modelId, c.model);
    if c.state.phase.AtRole? {
      DecodeOne(modelId, w.calls, c.model, c.prompt);
    } else {
      assert w'.calls == w.calls;
    }
  }

  lemma CloseBalances(modelId: string, allowlist: seq<string>, w: World, i: nat)
    requires Balanced(modelId, w)
    ensures Balanced(modelId, Do(modelId, allowlist, w, CloseStream(i)))
  {
    hide Run;
    hide GeneratedTokens;
    hide StreamedTokens;
    hide Streaming.Records;
    if i < |w.streams| {
      var c, w' := w.streams[i], Do(modelId, allowlist, w, CloseStream(i));
      StreamedTokensUpdate(w.streams, i, w'.streams[i]);
      GeneratedTokensRecords(w.events, c.state, w'.streams[i].state, modelId, c.model);
    }
  }

  lemma OpenBalances(modelId: string, w: World, c: ChatStream)
    requires Balanced(modelId, w) && c.state.phase.Fresh? && c.state.outputTokens == 0
    ensures Balanced(modelId, w.(streams := w.streams + [c]))
  {
    hide Run;
    hide GeneratedTokens;
    StreamedTokensSnoc(w.streams, c);
    hide StreamedTokens;
  }

  lemma StreamedTokensSnoc(streams: seq<ChatStream>, c: ChatStream)
    ensures StreamedTokens(streams + [c]) == StreamedTokens(streams) + c.state.outputTokens
  {
    assert (streams + [c])[..|streams|] == streams;
  }

  lemma LifecycleBalances(modelId: string, w: World, call: Call)
    requires Balanced(modelId, w) && !call.Generate?
    ensures Balanced(modelId, w.(calls := w.calls + [call]))
  {
    RunSnoc(modelId, w.calls, call);
    hide Run;
  }

  /** When the backend is driven only through the application, then after every run of completions
      and streams, served, failed, refused or cut short, its decoded tokens equal the metrics'
      generated tokens for its model plus the tokens counted by all streams. */
  lemma {:induction false} TokenAccounting(modelId: string, allowlist: seq<string>, ops: seq<Operation>)
    ensures Balanced(modelId, Serve(modelId, allowlist, ops))
  {
    if ops != [] {
      hide Balanced;
      hide Resumed;
      var w, op := Serve(modelId, allowlist, ops[..|ops| - 1]), ops[|ops| - 1];
      TokenAccounting(modelId, allowlist, ops[..|ops| - 1]);
      match op
      case LoadBackend => LifecycleBalances(modelId, w, Load);
      case CloseBackend => LifecycleBalances(modelId, w, Close);
      case Complete(model, messages) =>
        if !Refused(allowlist, model, messages) {
          CompleteBalances(modelId, w, model, LastUserMessage(messages));
        }
      case OpenStream(model, messages) =>
        if !Refused(allowlist, model, messages) {
          var state := Streaming.Start(Streaming.Script([], Streaming.Finishes));
          OpenBalances(modelId, w, ChatStream(model, LastUserMessage(messages), state));
        }
      case ResumeStream(i) =>
        if i < |w.streams| {
          ResumeBalances(modelId, w, i);
        }
      case CloseStream(i) => CloseBalances(modelId, allowlist, w, i);
    }
  }

  // ----- The objects behind the world -----

  /** An event stream that was opened for a chat, and what it was opened for. */
  datatype Opened = Opened(model: string, prompt: string, stream: Streaming.EventStream)

  ghost function Objects(streams: seq<Opened>): set<Streaming.EventStream> {
    set i | 0 <= i < |streams| :: streams[i].stream
  }

  ghost predicate Apart(streams: seq<Opened>) {
    forall i, j :: 0 <= i < j < |streams| ==> streams[i].stream != streams[j].stream
  }

  class Application {
    const allowlist: seq<string>
    const backend: FakeBatchedBackend
    const metrics: Metrics.InMemoryMetrics
    var streams: seq<Opened>

    constructor (allowlist: seq<string>, backend: FakeBatchedBackend, metrics: Metrics.InMemoryMetrics)
      requires backend.Valid() && metrics.Valid() && backend.history == [] && metrics.history == []
      ensures this.allowlist == allowlist && this.backend == backend && this.metrics == metrics
      ensures Valid() && Represents(World([], [], [])) && streams == []
    {
      this.allowlist, this.backend, this.metrics, streams := allowlist, backend, metrics, [];
    }

    ghost predicate Valid()
      reads this, backend, backend.metrics, metrics, Objects(streams)
    {
      && backend.Valid() && metrics.Valid() && Apart(streams)
      && forall i :: 0 <= i < |streams| ==> Belongs(streams[i])
    }

    ghost predicate Belongs(o: Opened)
      reads o.stream
    {
      o.stream.Valid() && o.stream.metrics == metrics && o.stream.model == o.model
    }

    ghost predicate Represents(w: World)
      reads this, backend, metrics, Objects(streams)
    {
      && backend.history == w.calls && metrics.history == w.events && |streams| == |w.streams|
      && forall i :: 0 <= i < |streams| ==> Shows(streams[i], w.streams[i])
    }

    ghost predicate Shows(o: Opened, c: ChatStream)
      reads o.stream
    {
      o.model == c.model && o.prompt == c.prompt && o.stream.state == c.state
    }

    method Complete(model: string, messages: seq<ChatMessage>, ghost w: World)
      returns (response: Result<Completion, HttpFailure>)
      requires Valid() && Represents(w) && messages != []
      modifies backend, backend.metrics, metrics
      ensures Valid() && Represents(Do(backend.modelId, allowlist, w, Operation.Complete(model, messages)))
    {
      hide Run;
      hide LastUserMessage;
      hide CompletionEvent;
      hide Metrics.RecordAll;
      hide Streaming.Run;
      response := ChatCompletion(backend, metrics, allowlist, model, messages);
    }

    method OpenStream(model: string, messages: seq<ChatMessage>, ghost w: World)
      requires Valid() && Represents(w) && messages != []
      modifies this`streams
      ensures Valid() && Represents(Do(backend.modelId, allowlist, w, Operation.OpenStream(model, messages)))
      ensures fresh(Objects(streams) - old(Objects(streams)))
    {
      hide Run;
      hide LastUserMessage;
      hide Metrics.RecordAll;
      hide Streaming.Run;
      if Allowed(allowlist, model) {
        var prompt := FindLastUserMessage(messages);
        var stream := new Streaming.EventStream(model, metrics, Streaming.Script([], Streaming.Finishes));
        streams := streams + [Opened(model, prompt, stream)];
        StartsFresh(stream.script);
      }
    }

    method ResumeStream(i: nat, at: Sse.Stamp, ghost w: World) returns (outcome: Streaming.Outcome)
      requires Valid() && Represents(w)
      modifies backend, backend.metrics, metrics, Objects(streams)
      ensures Valid() && Represents(Do(backend.modelId, allowlist, w, Operation.ResumeStream(i)))
    {
      hide Run;
      hide Metrics.RecordAll;
      hide Streaming.Run;
      hide Streaming.Resume;
      hide Streaming.Records;
      hide Streaming.OutcomeOf;
      hide FakeResponse;
      outcome := Streaming.Ended;
      if i < |streams| {
        var o := streams[i];
        if o.stream.phase.AtRole? {
          assert backend.View() == Run(backend.modelId, backend.history);
          var answer := backend.GenerateOne(o.prompt, o.model);
          o.stream.Supply(
            if answer.Ok? then Streaming.Script([answer.value], Streaming.Finishes)
            else Streaming.Script([], Streaming.Fails));
        }
        outcome := o.stream.Next(at);
      }
    }

    method CloseStream(i: nat, ghost w: World)
      requires Valid() && Represents(w)
      modifies metrics, Objects(streams)
      ensures Valid() && Represents(Do(backend.modelId, allowlist, w, Operation.CloseStream(i)))
    {
      hide Run;
      hide Metrics.RecordAll;
      hide Streaming.Run;
      hide Streaming.Step;
      if i < |streams| {
        streams[i].stream.Close();
      }
    }

    method Perform(op: Operation, at: Sse.Stamp, ghost w: World)
      requires Valid() && Represents(w)
      modifies this`streams, backend, backend.metrics, metrics, Objects(streams)
      ensures Valid() && Represents(Do(backend.modelId, allowlist, w, op))
      ensures fresh(Objects(streams) - old(Objects(streams)))
    {
      hide Run;
      hide Refused;
      hide LastUserMessage;
      hide CompletionEvent;
      hide Resumed;
      hide Metrics.RecordAll;
      hide Streaming.Run;
      hide Streaming.Step;
      match op
      case LoadBackend => backend.Load();
      case CloseBackend => backend.Close();
      case Complete(model, messages) =>
        if messages != [] {
          var _ := Complete(model, messages, w);
        } else {
          NoMessages(allowlist, model);
        }
      case OpenStream(model, messages) =>
        if messages != [] {
          OpenStream(model, messages, w);
        } else {
          NoMessages(allowlist, model);
        }
      case ResumeStream(i) =>
        var _ := ResumeStream(i, at, w);
      case CloseStream(i) =>
        CloseStream(i, w);
    }
  }

  lemma StartsFresh(script: Streaming.Script)
    ensures Streaming.Run(script, []) == Streaming.Start(script)
  {}

  lemma NoMessages(allowlist: seq<string>, model: string)
    ensures Refused(allowlist, model, [])
  {}

  /** The tokens the stream objects have counted. */
  ghost function Counted(streams: seq<Opened>): nat
    reads Objects(streams)
  {
    if streams == [] then 0
    else
      assert forall i :: 0 <= i < |streams| ==> streams[i].stream in Objects(streams);
      Counted(streams[..|streams| - 1]) + streams[|streams| - 1].stream.outputTokens
  }

  lemma {:induction false} CountedShown(app: Application, n: nat, w: World)
    requires app.Valid() && app.Represents(w) && n <= |app.streams|
    ensures Counted(app.streams[..n]) == StreamedTokens(w.streams[..n])
  {
    hide Run;
    hide Metrics.RecordAll;
    hide Streaming.Run;
    if n > 0 {
      CountedShown(app, n - 1, w);
      assert app.streams[..n][..n - 1] == app.streams[..n - 1] && w.streams[..n][..n - 1] == w.streams[..n - 1];
      assert app.Belongs(app.streams[n - 1]) && app.Shows(app.streams[n - 1], w.streams[n - 1]);
    }
  }

  /** Any operations on a real backend, real metrics and real stream objects end in the world that the
      operations determine; so the decoded tokens of the backend object are the generated tokens that the
      metrics object holds for its model plus the tokens that the stream objects have counted. */
  method Drive(modelId: string, allowlist: seq<string>, ops: seq<Operation>, stamps: seq<Sse.Stamp>)
    returns (app: Application)
    requires |stamps| == |ops|
    ensures app.Valid() && app.Represents(Serve(modelId, allowlist, ops))
    ensures app.backend.modelId == modelId && app.allowlist == allowlist
    ensures app.backend.metrics.decodeTokensTotal
         == GetOr(app.metrics.tokensGeneratedTotal, modelId, 0) + Counted(app.streams)
  {
    hide Serve;
    hide Do;
    hide Run;
    hide Metrics.RecordAll;
    hide Application.Valid;
    hide Application.Represents;
    var backend := new FakeBatchedBackend(modelId);
    var metrics := new Metrics.InMemoryMetrics();
    app := new Application(allowlist, backend, metrics);
    NothingServed(modelId, allowlist);
    for n := 0 to |ops|
      invariant fresh(app) && fresh(backend) && fresh(backend.metrics) && fresh(metrics)
      invariant fresh(Objects(app.streams))
      invariant app.backend == backend && app.metrics == metrics && app.allowlist == allowlist
      invariant app.Valid() && app.Represents(Serve(modelId, allowlist, ops[..n]))
    {
      ServeNext(modelId, allowlist, ops, n);
      app.Perform(ops[n], stamps[n], Serve(modelId, allowlist, ops[..n]));
    }
    assert ops[..|ops|] == ops;
    ObjectsBalance(app, modelId, allowlist, ops);
  }

  lemma NothingServed(modelId: string, allowlist: seq<string>)
    ensures Serve(modelId, allowlist, []) == World([], [], [])
  {}

  lemma ServeNext(modelId: string, allowlist: seq<string>, ops: seq<Operation>, n: nat)
    requires n < |ops|
    ensures Serve(modelId, allowlist, ops[..n + 1])
         == Do(modelId, allowlist, Serve(modelId, allowlist, ops[..n]), ops[n])
  {
    hide Do;
    assert ops[..n + 1][..n] == ops[..n];
  }

  lemma ObjectsBalance(app: Application, modelId: string, allowlist: seq<string>, ops: seq<Operation>)
    requires app.Valid() && app.Represents(Serve(modelId, allowlist, ops)) && app.backend.modelId == modelId
    ensures app.backend.metrics.decodeTokensTotal
         == GetOr(app.metrics.tokensGeneratedTotal, modelId, 0) + Counted(app.streams)
  {
    hide Serve;
    hide Run;
    hide Metrics.RecordAll;
    var w := Serve(modelId, allowlist, ops);
    TokenAccounting(modelId, allowlist, ops);
    CountedShown(app, |app.streams|, w);
    assert app.streams[..|app.streams|] == app.streams && w.streams[..|w.streams|] == w.streams;
    assert app.backend.View() == Run(modelId, w.calls);
    assert app.metrics.View() == Metrics.RecordAll(w.events);
  }
}
