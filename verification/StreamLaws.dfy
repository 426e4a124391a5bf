/** Laws of the event stream: its protocol, its accounting, and what a reader gets from its text. */
module StreamLaws {
  import opened Text
  import opened Sse
  import opened Streaming
  import Metrics

  // ----- The protocol -----

  function Contents(chunks: seq<string>): seq<Event> {
    seq(|chunks|, i requires 0 <= i < |chunks| => ContentEvent(chunks[i]))
  }

  function Closing(ending: Ending): seq<Event> {
    match ending
    case Finishes => [StopEvent, DoneEvent]
    case Fails => [ErrorEvent, DoneEvent]
    case Cancels => []
  }

  /** Everything a stream emits when nobody interrupts it. */
  function FullTrace(script: Script): seq<Event> {
    [RoleEvent] + Contents(script.chunks) + Closing(script.ending)
  }

  /** How far a stream is after emitting `k` events. */
  ghost predicate Progress(s: State, script: Script, k: nat) {
    var n := |script.chunks|;
    match s.phase
    case Fresh => k == 0 && s.pending == script
    case AtRole => k == 1 && s.pending == script
    case AtContent => 2 <= k <= n + 1 && s.pending == Script(script.chunks[k - 1..], script.ending)
    case AtStop => k == n + 2 && script.ending.Finishes?
    case AtError => k == n + 2 && script.ending.Fails?
    case AtDone => k == n + 3 && !script.ending.Cancels?
    case Finished => true
  }

  ghost predicate Stands(s: State, script: Script, k: nat) {
    k <= |FullTrace(script)| && s.emitted == FullTrace(script)[..k] && Progress(s, script, k)
  }

  function TokenSum(events: seq<Event>): nat {
    if events == [] then 0 else TokenSum(events[..|events| - 1]) + Words(TextOf(events[|events| - 1]))
  }

  /** The protocol: what was emitted is a prefix of the full trace; an error is counted exactly when
      the error event was emitted; a cancellation exactly when the generator ended between the role
      event and the stop or error event; the token count is that of the emitted contents. */
  ghost predicate Protocol(s: State, script: Script) {
    var n, k := |script.chunks|, |s.emitted|;
    && Stands(s, script, k)
    && s.errors == (if script.ending.Fails? && k >= n + 2 then 1 else 0)
    && s.cancellations == (if s.phase.Finished? && 1 <= k <= n + 1 then 1 else 0)
    && s.outputTokens == TokenSum(s.emitted)
  }

  lemma NextEvent(script: Script, k: nat, e: Event)
    requires k < |FullTrace(script)| && FullTrace(script)[k] == e
    ensures FullTrace(script)[..k] + [e] == FullTrace(script)[..k + 1]
    ensures TokenSum(FullTrace(script)[..k + 1]) == TokenSum(FullTrace(script)[..k]) + Words(TextOf(e))
  {
    var t := FullTrace(script);
    assert t[..k + 1][..k] == t[..k];
  }

  lemma NoWords()
    ensures Words("") == 0
  {}

  lemma TraceAt(script: Script)
    ensures var t, n := FullTrace(script), |script.chunks|;
      && |t| == n + (if script.ending.Cancels? then 1 else 3) && t[0] == RoleEvent
      && (forall i :: 0 <= i < n ==> t[i + 1] == ContentEvent(script.chunks[i]))
      && (script.ending.Finishes? ==> t[n + 1] == StopEvent && t[n + 2] == DoneEvent)
      && (script.ending.Fails? ==> t[n + 1] == ErrorEvent && t[n + 2] == DoneEvent)
  {}

  lemma DropOne(chunks: seq<string>, k: nat)
    requires k < |chunks|
    ensures chunks[k..][0] == chunks[k] && chunks[k..][1..] == chunks[k + 1..]
  {}

  lemma PullChunkState(s: State, script: Script, k: nat)
    requires Guarded(s) && 1 <= k <= |script.chunks|
    requires s.pending == Script(script.chunks[k - 1..], script.ending)
    ensures var s' := Pull(s);
      && s'.phase == AtContent && s'.pending == Script(script.chunks[k..], script.ending)
      && s'.emitted == s.emitted + [ContentEvent(script.chunks[k - 1])]
  {
    hide Words;
    DropOne(script.chunks, k - 1);
  }

  lemma PullChunkStands(s: State, script: Script, k: nat)
    requires Stands(s, script, k) && Guarded(s) && s.pending.chunks != []
    ensures 1 <= k <= |script.chunks| && s.pending.chunks[0] == script.chunks[k - 1]
    ensures Stands(Pull(s), script, k + 1)
    ensures k < |FullTrace(script)| && FullTrace(script)[k] == ContentEvent(script.chunks[k - 1])
  {
    hide Words;
    hide FullTrace;
    hide Pull;
    assert 1 <= k <= |script.chunks|;
    ChunkEvent(script, k);
    PullChunkState(s, script, k);
    NextEvent(script, k, ContentEvent(script.chunks[k - 1]));
  }

  lemma PullChunkKeepsProtocol(s: State, script: Script)
    requires Protocol(s, script) && Guarded(s) && s.pending.chunks != []
    ensures Protocol(Pull(s), script)
  {
    hide Words;
    hide TokenSum;
    hide FullTrace;
    hide Stands;
    var k := |s.emitted|;
    PullChunkStands(s, script, k);
    StandsEmitted(s, script, k);
    StandsEmitted(Pull(s), script, k + 1);
    NextEvent(script, k, ContentEvent(script.chunks[k - 1]));
  }

  lemma StandsEmitted(s: State, script: Script, k: nat)
    requires Stands(s, script, k)
    ensures k <= |FullTrace(script)| && s.emitted == FullTrace(script)[..k]
  {}

  lemma ChunkEvent(script: Script, k: nat)
    requires 1 <= k <= |script.chunks|
    ensures k < |FullTrace(script)| && FullTrace(script)[k] == ContentEvent(script.chunks[k - 1])
  {
    TraceAt(script);
    assert FullTrace(script)[(k - 1) + 1] == ContentEvent(script.chunks[k - 1]);
  }

  lemma PullEndKeepsProtocol(s: State, script: Script)
    requires Protocol(s, script) && Guarded(s) && s.pending.chunks == []
    ensures Protocol(Pull(s), script)
  {
    hide Words;
    hide TokenSum;
    hide FullTrace;
    NoWords();
    TraceAt(script);
    var n, k := |script.chunks|, |s.emitted|;
    assert k == n + 1;
    if script.ending.Finishes? {
      NextEvent(script, k, StopEvent);
    } else if script.ending.Fails? {
      NextEvent(script, k, ErrorEvent);
    }
  }

  lemma StepKeepsProtocol(s: State, script: Script, c: Command)
    requires Protocol(s, script)
    ensures Protocol(Step(s, c), script)
  {
    hide Words;
    hide TokenSum;
    hide FullTrace;
    NoWords();
    TraceAt(script);
    var n, k := |script.chunks|, |s.emitted|;
    if c.Close? || (c.CancelAwait? && Guarded(s)) {
    } else if Guarded(s) {
      if s.pending.chunks != [] {
        PullChunkKeepsProtocol(s, script);
      } else {
        PullEndKeepsProtocol(s, script);
      }
    } else if s.phase.Fresh? {
      NextEvent(script, k, RoleEvent);
    } else if s.phase.AtStop? || s.phase.AtError? {
      NextEvent(script, k, DoneEvent);
    }
  }

  /** Safety of every run, whatever the backend and the consumer do. */
  lemma {:induction false} StreamSafety(script: Script, commands: seq<Command>)
    ensures Protocol(Run(script, commands), script)
    ensures var s := Run(script, commands);
      s.emitted <= FullTrace(script) && s.errors + s.cancellations <= 1
  {
    if commands != [] {
      hide Protocol;
      StreamSafety(script, commands[..|commands| - 1]);
      StepKeepsProtocol(Run(script, commands[..|commands| - 1]), script, commands[|commands| - 1]);
    }
    ProtocolSafe(Run(script, commands), script);
  }

  lemma ProtocolSafe(s: State, script: Script)
    requires Protocol(s, script)
    ensures s.emitted <= FullTrace(script) && s.errors + s.cancellations <= 1
  {}

  // ----- Cancellation -----

  /** The commands that cancel: closing or being cancelled at the role or a content event, or
      asking the backend for more when its own stream ends by being cancelled. */
  predicate CancelsAt(s: State, c: Command) {
    Guarded(s) && (c.Close? || c.CancelAwait? || (s.pending.chunks == [] && s.pending.ending.Cancels?))
  }

  ghost predicate SomeCancels(script: Script, commands: seq<Command>) {
    exists i :: 0 <= i < |commands| && CancelsAt(Run(script, commands[..i]), commands[i])
  }

  lemma SomeCancelsSnoc(script: Script, before: seq<Command>, last: Command)
    ensures SomeCancels(script, before + [last])
      <==> SomeCancels(script, before) || CancelsAt(Run(script, before), last)
  {
    hide Run;
    hide CancelsAt;
    var all := before + [last];
    assert forall i :: 0 <= i < |before| ==> all[..i] == before[..i] && all[i] == before[i];
    assert all[..|before|] == before && all[|before|] == last;
    if SomeCancels(script, all) {
      var i :| 0 <= i < |all| && CancelsAt(Run(script, all[..i]), all[i]);
    }
    if SomeCancels(script, before) {
      var i :| 0 <= i < |before| && CancelsAt(Run(script, before[..i]), before[i]);
      assert CancelsAt(Run(script, all[..i]), all[i]);
    }
    if CancelsAt(Run(script, before), last) {
      assert CancelsAt(Run(script, all[..|before|]), all[|before|]);
    }
  }

  lemma StepCancels(s: State, c: Command)
    ensures Step(s, c).cancellations == s.cancellations + if CancelsAt(s, c) then 1 else 0
  {}

  /** A cancellation is recorded exactly when one of the commands cancelled. */
  lemma {:induction false} CancellationExactly(script: Script, commands: seq<Command>)
    ensures Run(script, commands).cancellations > 0 <==> SomeCancels(script, commands)
  {
    if commands != [] {
      hide SomeCancels;
      hide CancelsAt;
      hide Step;
      var before, last := commands[..|commands| - 1], commands[|commands| - 1];
      CancellationExactly(script, before);
      SomeCancelsSnoc(script, before, last);
      StepCancels(Run(script, before), last);
      assert commands == before + [last];
    }
  }

  /** Closing before the first event runs nothing, and nothing runs afterwards. */
  lemma {:induction false} ClosedBeforeStart(script: Script, commands: seq<Command>)
    requires commands != [] && commands[0] == Close
    ensures Run(script, commands) == Start(script).(phase := Finished)
  {
    if |commands| == 1 {
      assert commands[..0] == [];
    } else {
      ClosedBeforeStart(script, commands[..|commands| - 1]);
    }
  }

  // ----- What a run records -----

  /** Everything a run records in the metrics, in order. */
  function Recorded(script: Script, commands: seq<Command>, model: string): seq<Metrics.Event> {
    if commands == [] then []
    else
      var before := commands[..|commands| - 1];
      Recorded(script, before, model) + Records(Run(script, before), Run(script, commands), model)
  }

  lemma StepRecords(s: State, c: Command, model: string)
    ensures var s' := Step(s, c);
      && (s'.errors == s.errors && s'.cancellations == s.cancellations ==> Records(s, s', model) == [])
      && (s'.errors > s.errors ==>
          s'.cancellations == s.cancellations && Records(s, s', model) == [Metrics.StreamError(model)])
      && (s'.cancellations > s.cancellations ==>
          s'.errors == s.errors && Records(s, s', model) == [Metrics.StreamCancellation(model)])
      && s'.errors >= s.errors && s'.cancellations >= s.cancellations
  {}

  /** A run records nothing, one stream error of its model, or one cancellation of its model. */
  lemma {:induction false} RecordsOnce(script: Script, commands: seq<Command>, model: string)
    ensures var s := Run(script, commands);
      Recorded(script, commands, model) ==
        if s.errors > 0 then [Metrics.StreamError(model)]
        else if s.cancellations > 0 then [Metrics.StreamCancellation(model)]
        else []
  {
    if commands != [] {
      hide Step;
      hide Records;
      var before, last := commands[..|commands| - 1], commands[|commands| - 1];
      RecordsOnce(script, before, model);
      StreamSafety(script, commands);
      hide Protocol;
      StepRecords(Run(script, before), last, model);
    }
  }

  /** Added to any metrics, the records of a run raise that model's error or cancellation counter by
      what the run counted, and no other counter. */
  lemma RunRecords(script: Script, commands: seq<Command>, model: string, history: seq<Metrics.Event>,
                   c: Metrics.Counter)
    ensures var s := Run(script, commands);
      Metrics.EntryOf(Metrics.RecordAll(history + Recorded(script, commands, model)), c)
      == Metrics.EntryOf(Metrics.RecordAll(history), c)
         + if c == Metrics.StreamErrors(model) then s.errors
           else if c == Metrics.StreamCancellations(model) then s.cancellations
           else 0
  {
    hide Run;
    hide Metrics.RecordAll;
    hide Metrics.EntryOf;
    hide Metrics.Record;
    hide Protocol;
    RecordsOnce(script, commands, model);
    StreamSafety(script, commands);
    var records := Recorded(script, commands, model);
    hide Recorded;
    if records == [] {
      assert history + records == history;
    } else {
      Metrics.RecordAllSnoc(history, records[0]);
      Metrics.RecordAdds(Metrics.RecordAll(history), records[0], c);
      assert records == [records[0]];
    }
  }

  // ----- Draining -----

  ghost predicate OnlyNext(commands: seq<Command>) {
    forall i :: 0 <= i < |commands| ==> commands[i] == Next
  }

  /** A consumer that only asks gets one more event with each request, until the trace is complete. */
  lemma {:induction false} DrainingAdvances(script: Script, commands: seq<Command>)
    requires OnlyNext(commands)
    ensures var s, k := Run(script, commands), |commands|;
      && (k <= |FullTrace(script)| ==> |s.emitted| == k && !s.phase.Finished?)
      && (k > |FullTrace(script)| ==> |s.emitted| == |FullTrace(script)| && s.phase.Finished?)
  {
    hide FullTrace;
    TraceAt(script);
    if commands != [] {
      var before := commands[..|commands| - 1];
      DrainingAdvances(script, before);
      StreamSafety(script, before);
      hide Run;
      hide Progress;
      hide TokenSum;
      AdvanceOne(Run(script, before), script);
      assert Run(script, commands) == Resume(Run(script, before)) by {
        StepNext(script, commands);
      }
    }
  }

  lemma StepNext(script: Script, commands: seq<Command>)
    requires commands != [] && commands[|commands| - 1] == Next
    ensures Run(script, commands) == Resume(Run(script, commands[..|commands| - 1]))
  {}

  function TraceLength(script: Script): nat {
    |script.chunks| + if script.ending.Cancels? then 1 else 3
  }

  lemma PullAdvances(s: State, script: Script)
    requires Guarded(s) && 1 <= |s.emitted| <= |script.chunks| + 1
    requires |s.pending.chunks| == |script.chunks| + 1 - |s.emitted| && s.pending.ending == script.ending
    ensures var s' := Pull(s);
      if |s.emitted| == TraceLength(script) then s'.phase.Finished? && s'.emitted == s.emitted
      else |s'.emitted| == |s.emitted| + 1 && !s'.phase.Finished?
  {
    hide Words;
  }

  lemma AdvanceOne(s: State, script: Script)
    requires Progress(s, script, |s.emitted|)
    ensures var s' := Resume(s);
      if s.phase.Finished? then s' == s
      else if |s.emitted| == TraceLength(script) then s'.phase.Finished? && s'.emitted == s.emitted
      else |s'.emitted| == |s.emitted| + 1 && !s'.phase.Finished?
  {
    hide Pull;
    if Guarded(s) {
      PullAdvances(s, script);
    }
  }

  lemma Drained(script: Script, commands: seq<Command>)
    requires OnlyNext(commands) && |commands| >= |script.chunks| + 3
    ensures Run(script, commands).emitted == FullTrace(script)
  {
    DrainingAdvances(script, commands);
    StreamSafety(script, commands);
    TraceAt(script);
  }

  // ----- The round trip through the event text -----

  function NonEmpty(chunks: seq<string>): seq<string> {
    if chunks == [] then []
    else (if chunks[0] != "" then [chunks[0]] else []) + NonEmpty(chunks[1..])
  }

  function Join(chunks: seq<string>): string {
    if chunks == [] then "" else Join(chunks[..|chunks| - 1]) + chunks[|chunks| - 1]
  }

  lemma {:induction false} TextsConcat(a: seq<Event>, b: seq<Event>)
    ensures Texts(a + b) == Texts(a) + Texts(b)
  {
    hide TextOf;
    if a == [] {
      assert a + b == b;
    } else {
      assert (a + b)[1..] == a[1..] + b;
      TextsConcat(a[1..], b);
    }
  }

  lemma {:induction false} TextsOfContents(chunks: seq<string>)
    ensures Texts(Contents(chunks)) == NonEmpty(chunks)
  {
    if chunks != [] {
      assert Contents(chunks)[1..] == Contents(chunks[1..]);
      TextsOfContents(chunks[1..]);
    }
  }

  lemma {:induction false} TextsTextless(events: seq<Event>)
    requires forall e :: e in events ==> !e.ContentEvent?
    ensures Texts(events) == []
  {
    if events != [] {
      TextsTextless(events[1..]);
    }
  }

  lemma TextsOfTrace(script: Script)
    ensures Texts(FullTrace(script)) == NonEmpty(script.chunks)
  {
    hide Texts;
    hide Contents;
    TextsOfContents(script.chunks);
    TextsConcat([RoleEvent] + Contents(script.chunks), Closing(script.ending));
    TextsConcat([RoleEvent], Contents(script.chunks));
    TextsTextless([RoleEvent]);
    TextsTextless(Closing(script.ending));
  }

  lemma {:induction false} JoinConcat(a: seq<string>, b: seq<string>)
    ensures Join(a + b) == Join(a) + Join(b)
  {
    if b == [] {
      assert a + b == a;
    } else {
      var front, last := b[..|b| - 1], b[|b| - 1];
      JoinConcat(a, front);
      assert (a + b)[..|a + b| - 1] == a + front && (a + b)[|a + b| - 1] == last;
      assert Join(a) + Join(front) + last == Join(a) + (Join(front) + last);
    }
  }

  lemma {:induction false} JoinNonEmpty(chunks: seq<string>)
    ensures Join(NonEmpty(chunks)) == Join(chunks)
  {
    if chunks != [] {
      JoinNonEmpty(chunks[1..]);
      var head := if chunks[0] != "" then [chunks[0]] else [];
      JoinConcat(head, NonEmpty(chunks[1..]));
      JoinConcat([chunks[0]], chunks[1..]);
      assert chunks == [chunks[0]] + chunks[1..];
      assert Join([chunks[0]]) == chunks[0] by {
        assert [chunks[0]][..0] == [];
      }
      if head != [] {
        assert head == [chunks[0]];
      }
    }
  }

  /** Whatever the consumer did, a reader of the text produced so far gets exactly the non-empty
      contents emitted so far, and never raises. */
  lemma ReadAnyRun(script: Script, commands: seq<Command>, stamps: seq<Stamp>, model: string)
    requires |stamps| == |Run(script, commands).emitted|
    ensures var events := Run(script, commands).emitted;
      ReadLines(SplitLines(RenderAll(events, stamps, model))) == Reading(Texts(events), false)
  {
    ReadRendered(Run(script, commands).emitted, stamps, model);
  }

  /** A drained stream, split into lines and read line by line, gives exactly the backend's non-empty
      chunks in order, whether the backend ended normally or by an exception; so the text is
      preserved, and the failure is not: the reading is the same in both cases. */
  lemma StreamRoundTrip(script: Script, commands: seq<Command>, stamps: seq<Stamp>, model: string)
    requires OnlyNext(commands) && |commands| >= |script.chunks| + 3
    requires |stamps| == |FullTrace(script)|
    ensures Run(script, commands).emitted == FullTrace(script)
    ensures var reading := ReadLines(SplitLines(RenderAll(Run(script, commands).emitted, stamps, model)));
      reading == Reading(NonEmpty(script.chunks), false) && Join(reading.chunks) == Join(script.chunks)
  {
    Drained(script, commands);
    ReadRendered(FullTrace(script), stamps, model);
    TextsOfTrace(script);
    JoinNonEmpty(script.chunks);
  }

  // ----- Counting tokens chunk by chunk -----

  /** The chunks that start inside a word begun before them. */
  function Joints(chunks: seq<string>): nat {
    if chunks == [] then 0
    else
      var front, last := chunks[..|chunks| - 1], chunks[|chunks| - 1];
      Joints(front) + if Glued(Join(front), last) then 1 else 0
  }

  function ChunkWords(chunks: seq<string>): nat {
    if chunks == [] then 0 else ChunkWords(chunks[..|chunks| - 1]) + Words(chunks[|chunks| - 1])
  }

  /** Counting chunk by chunk over-counts by exactly the words that run across chunks, so by less
      than the number of chunks. */
  lemma {:induction false} ChunkWordsExactly(chunks: seq<string>)
    ensures ChunkWords(chunks) == Words(Join(chunks)) + Joints(chunks)
    ensures chunks != [] ==> Joints(chunks) <= |chunks| - 1
  {
    hide Words;
    if chunks == [] {
      NoWords();
    } else {
      var front, last := chunks[..|chunks| - 1], chunks[|chunks| - 1];
      ChunkWordsExactly(front);
      WordsConcat(Join(front), last);
    }
  }

  lemma {:induction false} TokenSumConcat(a: seq<Event>, b: seq<Event>)
    ensures TokenSum(a + b) == TokenSum(a) + TokenSum(b)
  {
    if b == [] {
      assert a + b == a;
    } else {
      assert (a + b)[..|a + b| - 1] == a + b[..|b| - 1];
      TokenSumConcat(a, b[..|b| - 1]);
    }
  }

  lemma {:induction false} TokenSumContents(chunks: seq<string>)
    ensures TokenSum(Contents(chunks)) == ChunkWords(chunks)
  {
    if chunks != [] {
      assert Contents(chunks)[..|chunks| - 1] == Contents(chunks[..|chunks| - 1]);
      TokenSumContents(chunks[..|chunks| - 1]);
    }
  }

  lemma {:induction false} TokenSumTextless(events: seq<Event>)
    requires forall e :: e in events ==> !e.ContentEvent?
    ensures TokenSum(events) == 0
  {
    hide Words;
    NoWords();
    if events != [] {
      TokenSumTextless(events[..|events| - 1]);
    }
  }

  /** The token count of a drained stream lies between the word count of the whole text, which is
      what a completion that is not streamed reports, and that plus the number of chunks less one. */
  lemma StreamedTokens(script: Script, commands: seq<Command>)
    requires OnlyNext(commands) && |commands| >= |script.chunks| + 3
    ensures var tokens, whole := Run(script, commands).outputTokens, Words(Join(script.chunks));
      && tokens == whole + Joints(script.chunks)
      && whole <= tokens && (script.chunks != [] ==> tokens <= whole + |script.chunks| - 1)
  {
    hide Words;
    Drained(script, commands);
    StreamSafety(script, commands);
    ChunkWordsExactly(script.chunks);
    TokenSumConcat([RoleEvent] + Contents(script.chunks), Closing(script.ending));
    TokenSumConcat([RoleEvent], Contents(script.chunks));
    TokenSumTextless([RoleEvent]);
    TokenSumTextless(Closing(script.ending));
    TokenSumContents(script.chunks);
  }

  /** A word that runs across two chunks is counted twice. */
  lemma SplitWordCountedTwice(commands: seq<Command>)
    requires OnlyNext(commands) && |commands| >= 5
    ensures Run(Script(["a", "b"], Finishes), commands).outputTokens == 2
    ensures Join(["a", "b"]) == "ab" && Words("ab") == 1
  {
    hide Run;
    hide Words;
    var chunks := ["a", "b"];
    TwoChunks("a", "b");
    OneWordCounts("ab");
    StreamedTokens(Script(chunks, Finishes), commands);
    assert "a" + "b" == "ab";
  }

  lemma TwoChunks(a: string, b: string)
    requires Glued(a, b)
    ensures Join([a, b]) == a + b && Joints([a, b]) == 1
  {
    assert [a, b][..1] == [a] && [a][..0] == [];
    assert "" + a == a && Join([a]) == a;
    assert Joints([a]) == 0;
  }

  // ----- Driving a stream object -----

  /** The stamps of the requests that brought an event. */
  function UsedStamps(script: Script, commands: seq<Command>, stamps: seq<Stamp>): seq<Stamp>
    requires |stamps| == |commands|
  {
    if commands == [] then []
    else
      var n := |commands| - 1;
      UsedStamps(script, commands[..n], stamps[..n])
      + if |Run(script, commands).emitted| > |Run(script, commands[..n]).emitted| then [stamps[n]] else []
  }

  lemma StepEmits(s: State, c: Command)
    ensures var s' := Step(s, c);
      s'.emitted == s.emitted || (s'.emitted != [] && s'.emitted == s.emitted + [s'.emitted[|s'.emitted| - 1]])
  {
    hide Words;
  }

  lemma {:induction false} UsedStampsCount(script: Script, commands: seq<Command>, stamps: seq<Stamp>)
    requires |stamps| == |commands|
    ensures |UsedStamps(script, commands, stamps)| == |Run(script, commands).emitted|
  {
    if commands != [] {
      hide Step;
      var n := |commands| - 1;
      UsedStampsCount(script, commands[..n], stamps[..n]);
      StepEmits(Run(script, commands[..n]), commands[n]);
    }
  }

  lemma {:induction false} RenderAllSnoc(events: seq<Event>, stamps: seq<Stamp>, e: Event, at: Stamp, model: string)
    requires |events| == |stamps|
    ensures RenderAll(events + [e], stamps + [at], model) == RenderAll(events, stamps, model) + Render(e, at, model)
  {
    hide Render;
    if events == [] {
      assert RenderAll([e], [at], model) == Render(e, at, model) + RenderAll([], [], model);
    } else {
      var rest := RenderAll(events[1..], stamps[1..], model);
      assert (events + [e])[1..] == events[1..] + [e] && (stamps + [at])[1..] == stamps[1..] + [at];
      RenderAllSnoc(events[1..], stamps[1..], e, at, model);
      assert Render(events[0], stamps[0], model) + (rest + Render(e, at, model))
          == Render(events[0], stamps[0], model) + rest + Render(e, at, model);
    }
  }

  /** The text that the events of a run make. */
  function TextSoFar(script: Script, commands: seq<Command>, stamps: seq<Stamp>, model: string): string
    requires |stamps| == |commands|
  {
    UsedStampsCount(script, commands, stamps);
    RenderAll(Run(script, commands).emitted, UsedStamps(script, commands, stamps), model)
  }

  function TextOfOutcome(outcome: Outcome): string {
    if outcome.Yielded? then outcome.text else ""
  }

  lemma TextGrows(script: Script, commands: seq<Command>, stamps: seq<Stamp>, model: string, c: Command, at: Stamp)
    requires |stamps| == |commands|
    ensures var s := Run(script, commands);
      TextSoFar(script, commands + [c], stamps + [at], model)
      == TextSoFar(script, commands, stamps, model) + TextOfOutcome(OutcomeOf(s, Step(s, c), at, model))
  {
    hide Render;
    hide Step;
    hide RenderAll;
    RunSnoc(script, commands, c);
    assert (commands + [c])[..|commands|] == commands && (stamps + [at])[..|stamps|] == stamps;
    UsedStampsCount(script, commands, stamps);
    var s := Run(script, commands);
    var s' := Step(s, c);
    StepEmits(s, c);
    var used := UsedStamps(script, commands, stamps);
    hide Run;
    if s'.emitted != s.emitted {
      RenderAllSnoc(s.emitted, used, s'.emitted[|s'.emitted| - 1], at, model);
    } else {
      assert used + [] == used;
    }
  }

  lemma RecordedSnoc(script: Script, commands: seq<Command>, model: string, c: Command)
    ensures Recorded(script, commands + [c], model)
         == Recorded(script, commands, model) + Records(Run(script, commands), Step(Run(script, commands), c), model)
  {
    hide Step;
    hide Records;
    RunSnoc(script, commands, c);
    assert (commands + [c])[..|commands|] == commands;
  }

  method Obey(stream: EventStream, c: Command, at: Stamp) returns (outcome: Outcome)
    requires stream.Valid() && stream.MetricsValid()
    modifies stream, stream.metrics
    ensures stream.Did(c)
    ensures TextOfOutcome(outcome) == TextOfOutcome(OutcomeOf(old(stream.state), stream.state, at, stream.model))
  {
    match c
    case Next => outcome := stream.Next(at);
    case CancelAwait => outcome := stream.NextCancelled(at);
    case Close =>
      stream.Close();
      outcome := Ended;
  }

  /** A consumer of a stream object that issues the commands in turn and keeps what it is given: the text
      is that of the events the run emits, a reader gets the contents from it, and the metrics hold what
      the run records. */
  method Drive(stream: EventStream, commands: seq<Command>, stamps: seq<Stamp>) returns (text: string)
    requires stream.Valid() && stream.MetricsValid() && stream.commands == [] && |stamps| == |commands|
    modifies stream, stream.metrics
    ensures stream.Valid() && stream.MetricsValid() && stream.commands == commands
    ensures stream.script == old(stream.script)
    ensures stream.state == Run(stream.script, commands)
    ensures text == TextSoFar(stream.script, commands, stamps, stream.model)
    ensures ReadLines(SplitLines(text)) == Reading(Texts(stream.state.emitted), false)
    ensures stream.metrics != null ==>
      stream.metrics.history == old(stream.metrics.history) + Recorded(stream.script, commands, stream.model)
  {
    hide Run;
    hide Step;
    hide RenderAll;
    hide TextSoFar;
    hide Recorded;
    hide OutcomeOf;
    hide Metrics.RecordAll;
    text := "";
    NothingDriven(stream.script, stream.model);
    for i := 0 to |commands|
      invariant stream.Valid() && stream.MetricsValid() && stream.commands == commands[..i]
      invariant stream.script == old(stream.script)
      invariant stream.state == Run(stream.script, commands[..i])
      invariant text == TextSoFar(stream.script, commands[..i], stamps[..i], stream.model)
      invariant stream.metrics != null ==>
        stream.metrics.history == old(stream.metrics.history) + Recorded(stream.script, commands[..i], stream.model)
    {
      assert commands[..i + 1] == commands[..i] + [commands[i]] && stamps[..i + 1] == stamps[..i] + [stamps[i]];
      TextGrows(stream.script, commands[..i], stamps[..i], stream.model, commands[i], stamps[i]);
      RecordedSnoc(stream.script, commands[..i], stream.model, commands[i]);
      var outcome := Obey(stream, commands[i], stamps[i]);
      text := text + TextOfOutcome(outcome);
    }
    assert commands[..|commands|] == commands && stamps[..|stamps|] == stamps;
    ReadText(stream.script, commands, stamps, stream.model);
  }

  lemma NothingDriven(script: Script, model: string)
    ensures TextSoFar(script, [], [], model) == "" && Recorded(script, [], model) == []
    ensures Run(script, []) == Start(script)
  {}

  lemma ReadText(script: Script, commands: seq<Command>, stamps: seq<Stamp>, model: string)
    requires |stamps| == |commands|
    ensures ReadLines(SplitLines(TextSoFar(script, commands, stamps, model)))
         == Reading(Texts(Run(script, commands).emitted), false)
  {
    UsedStampsCount(script, commands, stamps);
    ReadRendered(Run(script, commands).emitted, UsedStamps(script, commands, stamps), model);
  }

  /** A drained stream reads the same however its backend ended: a reader cannot tell a failed stream, or
      a cancelled one, from a finished one. */
  lemma EndingIsInvisible(chunks: seq<string>, one: Ending, other: Ending, stamps: seq<Stamp>, others: seq<Stamp>,
                          model: string)
    requires |stamps| == |FullTrace(Script(chunks, one))| && |others| == |FullTrace(Script(chunks, other))|
    ensures ReadLines(SplitLines(RenderAll(FullTrace(Script(chunks, one)), stamps, model)))
         == ReadLines(SplitLines(RenderAll(FullTrace(Script(chunks, other)), others, model)))
  {
    ReadRendered(FullTrace(Script(chunks, one)), stamps, model);
    ReadRendered(FullTrace(Script(chunks, other)), others, model);
    TextsOfTrace(Script(chunks, one));
    TextsOfTrace(Script(chunks, other));
  }
}
