/** The event stream of a chat completion: a generator that a consumer resumes, closes, or
    abandons while it waits for the backend, over a backend that yields chunks and then ends. */
module Streaming {
  import opened Text
  import opened Sse
  import Metrics

  /** How a backend's stream ends after its chunks: normally, by an exception, or because it was
      itself cancelled. */
  datatype Ending = Finishes | Fails | Cancels

  datatype Script = Script(chunks: seq<string>, ending: Ending)

  /** The yield at which the generator is suspended. */
  datatype Phase = Fresh | AtRole | AtContent | AtStop | AtError | AtDone | Finished

  datatype State = State(
    phase: Phase, pending: Script, outputTokens: nat, emitted: seq<Event>, errors: nat, cancellations: nat)

  /** What a consumer does: ask for the next event, close the generator, or ask for the next event
      and be cancelled while the backend is awaited. */
  datatype Command = Next | Close | CancelAwait

  function Start(script: Script): State {
    State(Fresh, script, 0, [], 0, 0)
  }

  function Emit(s: State, phase: Phase, e: Event): State {
    s.(phase := phase, emitted := s.emitted + [e])
  }

  function Cancelled(s: State): State {
    s.(phase := Finished, cancellations := s.cancellations + 1)
  }

  /** Awaiting the backend's next chunk. */
  function Pull(s: State): State {
    if s.pending.chunks != [] then
      var chunk := s.pending.chunks[0];
      Emit(s.(pending := Script(s.pending.chunks[1..], s.pending.ending),
              outputTokens := s.outputTokens + Words(chunk)), AtContent, ContentEvent(chunk))
    else
      match s.pending.ending
      case Finishes => Emit(s, AtStop, StopEvent)
      case Fails => Emit(s.(errors := s.errors + 1), AtError, ErrorEvent)
      case Cancels => Cancelled(s)
  }

  function Resume(s: State): State {
    match s.phase
    case Fresh => Emit(s, AtRole, RoleEvent)
    case AtRole => Pull(s)
    case AtContent => Pull(s)
    case AtStop => Emit(s, AtDone, DoneEvent)
    case AtError => Emit(s, AtDone, DoneEvent)
    case AtDone => s.(phase := Finished)
    case Finished => s
  }

  /** Suspended inside the guarded part of the generator. */
  predicate Guarded(s: State) {
    s.phase.AtRole? || s.phase.AtContent?
  }

  function Step(s: State, c: Command): State {
    match c
    case Next => Resume(s)
    case Close => if Guarded(s) then Cancelled(s) else s.(phase := Finished)
    case CancelAwait => if Guarded(s) then Cancelled(s) else Resume(s)
  }

  function Run(script: Script, commands: seq<Command>): State {
    if commands == [] then Start(script)
    else Step(Run(script, commands[..|commands| - 1]), commands[|commands| - 1])
  }

  /** What one command brings the consumer: an event's text, the end of the iteration, or the
      cancellation that passes through the generator. */
  datatype Outcome = Yielded(text: string) | Ended | CancelledError

  function OutcomeOf(s: State, s': State, at: Stamp, model: string): Outcome {
    if |s'.emitted| > |s.emitted| then Yielded(Render(s'.emitted[|s'.emitted| - 1], at, model))
    else if s'.cancellations > s.cancellations then CancelledError
    else Ended
  }

  /** What the step from one state to the next records in the metrics. */
  function Records(s: State, s': State, model: string): seq<Metrics.Event> {
    if s'.errors > s.errors then [Metrics.StreamError(model)]
    else if s'.cancellations > s.cancellations then [Metrics.StreamCancellation(model)]
    else []
  }

  // ----- The generator object -----

  class EventStream {
    const model: string
    const metrics: Metrics.InMemoryMetrics?
    var phase: Phase
    var pending: Script
    var outputTokens: nat
    /** The backend's whole script, the consumer's commands so far, and the state they lead to. */
    ghost var script: Script
    ghost var commands: seq<Command>
    ghost var state: State

    constructor (model: string, metrics: Metrics.InMemoryMetrics?, script: Script)
      ensures Valid() && commands == []
      ensures this.model == model && this.metrics == metrics && this.script == script
    {
      this.model, this.metrics, this.script := model, metrics, script;
      phase, pending, outputTokens := Fresh, script, 0;
      commands, state := [], Start(script);
    }

    ghost predicate Valid()
      reads this
    {
      && state == Run(script, commands)
      && phase == state.phase && pending == state.pending && outputTokens == state.outputTokens
    }

    ghost predicate MetricsValid()
      reads metrics
    {
      metrics != null ==> metrics.Valid()
    }

    /** A command has run: the state is the next one and the metrics hold what the step records. */
    twostate predicate Did(c: Command)
      reads this, metrics
    {
      && Valid() && MetricsValid()
      && script == old(script) && commands == old(commands) + [c] && state == Step(old(state), c)
      && (metrics != null ==> metrics.history == old(metrics.history) + Records(old(state), state, model))
    }

    /** What the backend will yield is settled when it is first asked, at the role event. */
    method Supply(given: Script)
      requires Valid() && (phase.Fresh? || phase.AtRole?)
      modifies this`pending, this`script, this`state
      ensures Valid() && script == given && state == old(state).(pending := given)
    {
      SuppliedEarly(script, given, commands);
      hide Run;
      pending, script, state := given, given, state.(pending := given);
    }

    /** The fields hold what the state says. */
    ghost predicate Holds(s: State)
      reads this
    {
      phase == s.phase && pending == s.pending && outputTokens == s.outputTokens
    }

    /** Asking for the next event runs the generator to its next yield. */
    method Next(at: Stamp) returns (outcome: Outcome)
      requires Valid() && MetricsValid()
      modifies this, metrics
      ensures Did(Command.Next)
      ensures outcome == OutcomeOf(old(state), state, at, model)
    {
      hide Run;
      hide Render;
      hide Pull;
      hide Metrics.RecordAll;
      RunSnoc(script, commands, Command.Next);
      ghost var s := state;
      commands, state := commands + [Command.Next], Step(s, Command.Next);
      match phase
      case Fresh =>
        phase, outcome := AtRole, Yielded(Render(RoleEvent, at, model));
      case AtStop =>
        phase, outcome := AtDone, Yielded(Render(DoneEvent, at, model));
      case AtError =>
        phase, outcome := AtDone, Yielded(Render(DoneEvent, at, model));
      case AtDone =>
        phase, outcome := Finished, Ended;
      case Finished =>
        outcome := Ended;
      case _ =>
        outcome := Await(s, at);
    }

    /** Awaiting the backend's next chunk, at the role or a content event. */
    method Await(ghost s: State, at: Stamp) returns (outcome: Outcome)
      requires Holds(s) && Guarded(s) && MetricsValid()
      modifies this`phase, this`pending, this`outputTokens, metrics
      ensures Holds(Pull(s)) && MetricsValid()
      ensures metrics != null ==> metrics.history == old(metrics.history) + Records(s, Pull(s), model)
      ensures outcome == OutcomeOf(s, Pull(s), at, model)
    {
      hide Run;
      hide Render;
      hide Metrics.RecordAll;
      if pending.chunks != [] {
        var chunk := pending.chunks[0];
        pending := Script(pending.chunks[1..], pending.ending);
        outputTokens := outputTokens + Words(chunk);
        phase := AtContent;
        return Yielded(Render(ContentEvent(chunk), at, model));
      }
      match pending.ending
      case Finishes =>
        phase := AtStop;
        return Yielded(Render(StopEvent, at, model));
      case Fails =>
        if metrics != null {
          metrics.RecordStreamError(model);
        }
        phase := AtError;
        return Yielded(Render(ErrorEvent, at, model));
      case Cancels =>
        Interrupt();
        return CancelledError;
    }

    /** The handler of a cancellation or of a close: it records and ends the generator. */
    method Interrupt()
      requires MetricsValid()
      modifies this`phase, metrics
      ensures phase == Finished && MetricsValid()
      ensures metrics != null ==> metrics.history == old(metrics.history) + [Metrics.StreamCancellation(model)]
    {
      if metrics != null {
        metrics.RecordStreamCancellation(model);
      }
      phase := Finished;
    }

    /** Closing outside the guarded part records nothing; before the first event it runs nothing. */
    method Close()
      requires Valid() && MetricsValid()
      modifies this, metrics
      ensures Did(Command.Close)
    {
      hide Run;
      hide Render;
      hide Metrics.RecordAll;
      RunSnoc(script, commands, Command.Close);
      commands, state := commands + [Command.Close], Step(state, Command.Close);
      if phase.AtRole? || phase.AtContent? {
        Interrupt();
      } else {
        phase := Finished;
      }
    }

    /** Asking for the next event when the wait for the backend is going to be cancelled; where the
        generator does not wait for the backend this is an ordinary request. */
    method NextCancelled(at: Stamp) returns (outcome: Outcome)
      requires Valid() && MetricsValid()
      modifies this, metrics
      ensures Did(Command.CancelAwait)
      ensures outcome == OutcomeOf(old(state), state, at, model)
    {
      hide Run;
      hide Render;
      hide Metrics.RecordAll;
      if phase.AtRole? || phase.AtContent? {
        RunSnoc(script, commands, Command.CancelAwait);
        commands, state := commands + [Command.CancelAwait], Step(state, Command.CancelAwait);
        Interrupt();
        return CancelledError;
      }
      ghost var before := commands;
      outcome := Next(at);
      RunSnoc(script, before, Command.CancelAwait);
      commands := before + [Command.CancelAwait];
    }
  }

  /** Up to the role event a run does not depend on the backend. */
  lemma {:induction false} SuppliedEarly(script: Script, given: Script, commands: seq<Command>)
    requires Run(script, commands).phase.Fresh? || Run(script, commands).phase.AtRole?
    ensures Run(given, commands) == Run(script, commands).(pending := given)
  {
    if commands != [] {
      hide Pull;
      var before, last := commands[..|commands| - 1], commands[|commands| - 1];
      NotPulled(Run(script, before), last);
      SuppliedEarly(script, given, before);
    }
  }

  lemma NotPulled(s: State, c: Command)
    requires Step(s, c).phase.Fresh? || Step(s, c).phase.AtRole?
    ensures s.phase.Fresh? && !c.Close?
  {
    hide Words;
  }

  lemma RunSnoc(script: Script, commands: seq<Command>, c: Command)
    ensures Run(script, commands + [c]) == Step(Run(script, commands), c)
  {
    assert (commands + [c])[..|commands|] == commands;
  }
}
