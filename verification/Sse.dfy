/** The Server-Sent Events text of a streamed chat completion: how the application writes an
    event, and how the OpenAI-compatible backend reads one line of it. */
module Sse {
  import opened Wrappers
  import opened Text
  import opened Dicts
  import opened JsonText

  datatype Event = RoleEvent | ContentEvent(text: string) | StopEvent | ErrorEvent | DoneEvent

  /** What an event takes from its surroundings: a fresh unique id and the clock. */
  datatype Stamp = Stamp(uid: string, now: int)

  // ----- Writing -----

  function Delta(e: Event): Dict<string, Json> {
    match e
    case RoleEvent => [Entry("role", Str("assistant"))]
    case ContentEvent(text) => [Entry("content", Str(text))]
    case _ => []
  }

  function FinishReason(e: Event): Json {
    match e
    case StopEvent => Str("stop")
    case ErrorEvent => Str("error")
    case _ => Null
  }

  function Choice(e: Event): Dict<string, Json> {
    [Entry("index", Int(0)), Entry("delta", Obj(Delta(e))), Entry("finish_reason", FinishReason(e))]
  }

  const STREAM_FAILURE: Dict<string, Json> :=
    [Entry("code", Str("backend_stream_failed")), Entry("message", Str("Backend stream failed"))]

  /** The fields before `choices`. */
  function Header(at: Stamp, model: string): Dict<string, Json> {
    [Entry("id", Str("chatcmpl-" + at.uid)), Entry("object", Str("chat.completion.chunk")),
     Entry("created", Int(at.now)), Entry("model", Str(model))]
  }

  function Payload(e: Event, at: Stamp, model: string): Dict<string, Json> {
    Header(at, model) + [Entry("choices", Arr([Obj(Choice(e))]))]
    + if e.ErrorEvent? then [Entry("error", Obj(STREAM_FAILURE))] else []
  }

  function DataLine(e: Event, at: Stamp, model: string): string {
    "data: " + if e.DoneEvent? then "[DONE]" else Dumps(Obj(Payload(e, at, model)))
  }

  /** The text of one event, as the stream yields it. */
  function Render(e: Event, at: Stamp, model: string): string {
    DataLine(e, at, model) + "\n\n"
  }

  function RenderAll(events: seq<Event>, stamps: seq<Stamp>, model: string): string
    requires |events| == |stamps|
  {
    if events == [] then ""
    else Render(events[0], stamps[0], model) + RenderAll(events[1..], stamps[1..], model)
  }

  // ----- Reading -----

  /** A JSON value that is not an object has no `get`: the reader raises AttributeError. */
  datatype ReaderError = NotAnObject

  /** The first non-empty string among the named values. */
  function FirstTextValue(payload: Dict<string, Json>, names: seq<string>): string {
    if names == [] then ""
    else
      match Get<string, Json>(payload, names[0])
      case Some(Str(s)) => if s != "" then s else FirstTextValue(payload, names[1..])
      case _ => FirstTextValue(payload, names[1..])
  }

  function ContentOf(payload: Dict<string, Json>): string {
    match GetOr<string, Json>(payload, "choices", Arr([]))
    case Arr(choices) =>
      if choices != [] && choices[0].Obj? then
        match GetOr<string, Json>(choices[0].fields, "delta", Obj([]))
        case Obj(delta) => FirstTextValue(delta, ["content", "reasoning_content"])
        case _ => ""
      else ""
    case _ => ""
  }

  /** The text carried by one line; lines that carry none give the empty text. */
  function ExtractSseContent(line: string): Result<string, ReaderError> {
    if !StartsWith(line, "data: ") then Ok("")
    else
      var data := Strip(line[6..]);
      if data == "[DONE]" then Ok("")
      else
        match Loads(data)
        case None => Ok("")
        case Some(Obj(payload)) => Ok(ContentOf(payload))
        case Some(_) => Raised(NotAnObject)
  }

  /** What a reader gets from a sequence of lines: its chunks, up to a line at which it raises. */
  datatype Reading = Reading(chunks: seq<string>, failed: bool)

  function ReadLines(lines: seq<string>): Reading {
    if lines == [] then Reading([], false)
    else
      match ExtractSseContent(lines[0])
      case Raised(_) => Reading([], true)
      case Ok(chunk) =>
        var rest := ReadLines(lines[1..]);
        Reading((if chunk != "" then [chunk] else []) + rest.chunks, rest.failed)
  }

  /** The line loop of the backend's `stream`. */
  method Stream(lines: seq<string>) returns (r: Reading)
    ensures r == ReadLines(lines)
  {
    var chunks := [];
    for i := 0 to |lines|
      invariant ReadLines(lines) == Reading(chunks + ReadLines(lines[i..]).chunks, ReadLines(lines[i..]).failed)
    {
      var chunk := ExtractSseContent(lines[i]);
      assert lines[i..][1..] == lines[i + 1..];
      if chunk.Raised? {
        assert chunks + [] == chunks;
        return Reading(chunks, true);
      }
      if chunk.value != "" {
        ghost var rest := ReadLines(lines[i + 1..]).chunks;
        assert chunks + ([chunk.value] + rest) == chunks + [chunk.value] + rest;
        chunks := chunks + [chunk.value];
      } else {
        assert [] + ReadLines(lines[i + 1..]).chunks == ReadLines(lines[i + 1..]).chunks;
      }
    }
    assert lines[|lines|..] == [];
    assert chunks + [] == chunks;
    return Reading(chunks, false);
  }

  // ----- What the reader gets from any line -----

  /** The first choice of the payload is an object with this delta. */
  ghost predicate HasDelta(payload: Dict<string, Json>, delta: Dict<string, Json>) {
    exists choice, others ::
      Get(payload, "choices") == Some(Arr([Obj(choice)] + others)) && Get(choice, "delta") == Some(Obj(delta))
  }

  ghost predicate IsText(value: Option<Json>, text: string) {
    value == Some(Str(text)) && text != ""
  }

  /** What a delta says: its content if that is a non-empty string, otherwise its reasoning content if that
      is one, and otherwise nothing. */
  ghost predicate Says(delta: Dict<string, Json>, text: string) {
    || IsText(Get(delta, "content"), text)
    || ((forall t :: !IsText(Get(delta, "content"), t)) && IsText(Get(delta, "reasoning_content"), text))
    || ((forall t :: !IsText(Get(delta, "content"), t)) && (forall t :: !IsText(Get(delta, "reasoning_content"), t))
        && text == "")
  }

  lemma DeltaSays(delta: Dict<string, Json>, text: string)
    ensures FirstTextValue(delta, ["content", "reasoning_content"]) == text <==> Says(delta, text)
  {
    hide Get;
    var names := ["content", "reasoning_content"];
    assert names[1..] == ["reasoning_content"] && names[1..][1..] == [];
    var content, reasoning := Get(delta, "content"), Get(delta, "reasoning_content");
    assert FirstTextValue(delta, names[1..][1..]) == "";
    assert FirstTextValue(delta, names[1..])
        == if reasoning.Some? && reasoning.value.Str? then reasoning.value.s else "";
    assert content.Some? && content.value.Str? && content.value.s != "" ==> IsText(content, content.value.s);
    assert reasoning.Some? && reasoning.value.Str? && reasoning.value.s != "" ==> IsText(reasoning, reasoning.value.s);
  }

  lemma DeltaAt(payload: Dict<string, Json>, delta: Dict<string, Json>)
    ensures HasDelta(payload, delta) <==>
      var value := Get(payload, "choices");
      && value.Some? && value.value.Arr? && value.value.items != [] && value.value.items[0].Obj?
      && Get(value.value.items[0].fields, "delta") == Some(Obj(delta))
  {
    hide Get;
    var value := Get(payload, "choices");
    if choice, others :|
      Get(payload, "choices") == Some(Arr([Obj(choice)] + others)) && Get(choice, "delta") == Some(Obj(delta))
    {
      assert ([Obj(choice)] + others)[0] == Obj(choice);
    }
    if value.Some? && value.value.Arr? && value.value.items != [] && value.value.items[0].Obj? {
      assert value.value.items == [Obj(value.value.items[0].fields)] + value.value.items[1..];
    }
  }

  /** The content of a payload is what its delta says, and empty when it has none. */
  lemma ContentExactly(payload: Dict<string, Json>, text: string)
    ensures ContentOf(payload) == text <==>
      (exists delta :: HasDelta(payload, delta) && Says(delta, text))
      || ((forall delta :: !HasDelta(payload, delta)) && text == "")
  {
    hide Get;
    hide FirstTextValue;
    hide Says;
    hide HasDelta;
    forall delta
      ensures HasDelta(payload, delta) <==>
        var value := Get(payload, "choices");
        && value.Some? && value.value.Arr? && value.value.items != [] && value.value.items[0].Obj?
        && Get(value.value.items[0].fields, "delta") == Some(Obj(delta))
      ensures FirstTextValue(delta, ["content", "reasoning_content"]) == text <==> Says(delta, text)
    {
      DeltaAt(payload, delta);
      DeltaSays(delta, text);
    }
    if delta :| HasDelta(payload, delta) {
      assert ContentOf(payload) == FirstTextValue(delta, ["content", "reasoning_content"]);
    } else {
      NoDelta(payload);
    }
  }

  lemma NoDelta(payload: Dict<string, Json>)
    requires forall delta :: !HasDelta(payload, delta)
    ensures ContentOf(payload) == ""
  {
    hide Get;
    hide FirstTextValue;
    hide HasDelta;
    var value := Get(payload, "choices");
    if value.Some? && value.value.Arr? && value.value.items != [] && value.value.items[0].Obj? {
      var delta := Get(value.value.items[0].fields, "delta");
      if delta.Some? && delta.value.Obj? {
        DeltaAt(payload, delta.value.fields);
      } else {
        assert FirstTextValue([], ["content", "reasoning_content"]) == "" by {
          NothingSaid();
        }
      }
    }
  }

  lemma NothingSaid()
    ensures FirstTextValue([], ["content", "reasoning_content"]) == ""
  {
    var names := ["content", "reasoning_content"];
    assert names[1..] == ["reasoning_content"] && names[1..][1..] == [];
  }

  /** The data of a line, if it is a data line. */
  ghost predicate CarriesData(line: string, data: string) {
    StartsWith(line, "data: ") && data == Strip(line[6..])
  }

  /** What the reader gets from any line: nothing from one that is no data line, from the end mark, and from
      data that is no JSON; an exception from JSON that is no object; and otherwise its content. */
  lemma ReaderExactly(line: string)
    ensures !StartsWith(line, "data: ") ==> ExtractSseContent(line) == Ok("")
    ensures forall data :: CarriesData(line, data) ==>
      && (Loads(data) == None ==> ExtractSseContent(line) == Ok(""))
      && (forall payload :: Loads(data) == Some(Obj(payload)) ==> ExtractSseContent(line) == Ok(ContentOf(payload)))
      && (forall v :: Loads(data) == Some(v) && !v.Obj? ==> ExtractSseContent(line) == Raised(NotAnObject))
  {
    hide Loads;
    hide ContentOf;
    hide Strip;
    DoneIsNoJson();
  }

  /** In particular a line that any writer of JSON made of an object gives what the object's delta says. */
  lemma ReadsWritten(payload: Dict<string, Json>, text: string)
    requires Plain(Obj(payload))
    ensures ExtractSseContent("data: " + Dumps(Obj(payload))) == Ok(text) <==>
      (exists delta :: HasDelta(payload, delta) && Says(delta, text))
      || ((forall delta :: !HasDelta(payload, delta)) && text == "")
  {
    hide Dumps;
    hide Loads;
    hide ContentOf;
    hide Plain;
    hide HasDelta;
    hide Says;
    var v := Obj(payload);
    var line := "data: " + Dumps(v);
    PayloadLine(v);
    StripNothing(Dumps(v));
    assert line[6..] == Dumps(v);
    LoadsDumps(v, "", "");
    assert "" + Dumps(v) + "" == Dumps(v);
    ContentExactly(payload, text);
  }

  ghost predicate Readable(lines: seq<string>) {
    forall i :: 0 <= i < |lines| ==> ExtractSseContent(lines[i]).Ok?
  }

  function TextsOf(lines: seq<string>): seq<string>
    requires Readable(lines)
  {
    if lines == [] then []
    else
      var text := ExtractSseContent(lines[0]).value;
      (if text == "" then [] else [text]) + TextsOf(lines[1..])
  }

  /** Reading lines gives their non-empty texts up to the first line that raises, which ends it. */
  lemma {:induction false} ReadsUpToFailure(lines: seq<string>, rest: seq<string>)
    requires Readable(lines)
    ensures ReadLines(lines) == Reading(TextsOf(lines), false)
    ensures rest != [] && ExtractSseContent(rest[0]).Raised? ==>
      ReadLines(lines + rest) == Reading(TextsOf(lines), true)
  {
    hide ExtractSseContent;
    if lines == [] {
      assert lines + rest == rest;
    } else {
      assert (lines + rest)[1..] == lines[1..] + rest && (lines + rest)[0] == lines[0];
      ReadsUpToFailure(lines[1..], rest);
    }
  }

  // ----- The round trip -----

  /** The text a client should get out of an event. */
  function TextOf(e: Event): string {
    if e.ContentEvent? then e.text else ""
  }

  lemma PayloadPlain(e: Event, at: Stamp, model: string)
    ensures Plain(Obj(Payload(e, at, model)))
  {
    hide Choice;
    ChoicePlain(e);
    assert Plain(Arr([Obj(Choice(e))]));
    assert Plain(Obj(STREAM_FAILURE));
  }

  lemma ChoicePlain(e: Event)
    ensures Plain(Obj(Choice(e)))
  {
    hide Delta;
    DeltaPlain(e);
  }

  lemma DeltaPlain(e: Event)
    ensures Plain(Obj(Delta(e)))
  {}

  lemma ContentOfPayload(e: Event, at: Stamp, model: string)
    ensures ContentOf(Payload(e, at, model)) == TextOf(e)
  {
    var fields := Payload(e, at, model);
    assert Get(fields, "choices") == Some(fields[4].value) by {
      assert fields[4].key == "choices";
      PayloadPlain(e, at, model);
      GetAt(fields, 4);
    }
    assert Get(Choice(e), "delta") == Some(Obj(Delta(e))) by {
      assert Choice(e)[1].key == "delta";
      GetAt(Choice(e), 1);
    }
    var names := ["content", "reasoning_content"];
    assert names[1..] == ["reasoning_content"] && names[1..][1..] == [];
  }

  /** Every event is one line, and the reader gets the event's text back from it. */
  lemma ExtractDataLine(e: Event, at: Stamp, model: string)
    ensures OneLine(DataLine(e, at, model))
    ensures ExtractSseContent(DataLine(e, at, model)) == Ok(TextOf(e))
  {
    var line := DataLine(e, at, model);
    var data := line[6..];
    assert StartsWith(line, "data: ");
    if e.DoneEvent? {
      assert data == "[DONE]";
      StripNothing(data);
    } else {
      hide Dumps;
      hide Loads;
      hide Payload;
      hide ContentOf;
      var v := Obj(Payload(e, at, model));
      PayloadLine(v);
      ReadPayload(e, at, model);
      assert data == Dumps(v);
      StripNothing(data);
    }
  }

  lemma ReadPayload(e: Event, at: Stamp, model: string)
    ensures Loads(Dumps(Obj(Payload(e, at, model)))) == Some(Obj(Payload(e, at, model)))
    ensures All(Dumps(Obj(Payload(e, at, model))), IsPrintableAscii)
    ensures ContentOf(Payload(e, at, model)) == TextOf(e)
  {
    hide Dumps;
    hide Loads;
    hide Payload;
    hide ContentOf;
    var v := Obj(Payload(e, at, model));
    PayloadPlain(e, at, model);
    DumpsPrintable(v);
    LoadsDumps(v, "", "");
    assert "" + Dumps(v) + "" == Dumps(v);
    ContentOfPayload(e, at, model);
  }

  lemma PayloadLine(v: Json)
    requires v.Obj?
    ensures var t := Dumps(v); |t| >= 2 && t[0] == '{' && t[|t| - 1] == '}' && t != "[DONE]"
  {}

  /** What the fields of an event's line say, each looked up by its name. */
  ghost predicate Describes(fields: Dict<string, Json>, e: Event, at: Stamp, model: string) {
    && Get(fields, "id") == Some(Str("chatcmpl-" + at.uid))
    && Get(fields, "object") == Some(Str("chat.completion.chunk"))
    && Get(fields, "created") == Some(Int(at.now)) && Get(fields, "model") == Some(Str(model))
    && (e == ErrorEvent ==> exists failure :: Get(fields, "error") == Some(Obj(failure)) && SaysFailure(failure))
    && (e != ErrorEvent ==> Get(fields, "error") == None)
    && exists choice :: Get(fields, "choices") == Some(Arr([Obj(choice)])) && ChoiceDescribes(choice, e)
  }

  ghost predicate SaysFailure(failure: Dict<string, Json>) {
    && Get(failure, "code") == Some(Str("backend_stream_failed"))
    && Get(failure, "message") == Some(Str("Backend stream failed"))
  }

  lemma FailureFields()
    ensures SaysFailure(STREAM_FAILURE)
  {
    assert Distinct(STREAM_FAILURE);
    GetAt(STREAM_FAILURE, 0);
    GetAt(STREAM_FAILURE, 1);
  }

  ghost predicate ChoiceDescribes(choice: Dict<string, Json>, e: Event) {
    && Get(choice, "index") == Some(Int(0))
    && Get(choice, "finish_reason")
       == Some(if e == StopEvent then Str("stop") else if e == ErrorEvent then Str("error") else Null)
    && exists delta :: Get(choice, "delta") == Some(Obj(delta)) && DeltaDescribes(delta, e)
  }

  ghost predicate DeltaDescribes(delta: Dict<string, Json>, e: Event) {
    && Get(delta, "role") == (if e == RoleEvent then Some(Str("assistant")) else None)
    && Get(delta, "content") == (if e.ContentEvent? then Some(Str(e.text)) else None)
  }

  lemma DeltaFields(e: Event)
    ensures DeltaDescribes(Delta(e), e)
  {
    var delta := Delta(e);
    if delta != [] {
      GetAt(delta, 0);
      GetMissing(delta, if e.RoleEvent? then "content" else "role");
    }
  }

  lemma ChoiceFields(e: Event)
    ensures ChoiceDescribes(Choice(e), e)
  {
    var choice := Choice(e);
    DeltaFields(e);
    assert Distinct(choice);
    hide DeltaDescribes;
    hide Get;
    GetAt(choice, 0);
    GetAt(choice, 1);
    GetAt(choice, 2);
  }

  lemma HeaderFields(e: Event, at: Stamp, model: string)
    requires !e.DoneEvent?
    ensures Describes(Payload(e, at, model), e, at, model)
  {
    hide Get;
    hide Choice;
    hide ChoiceDescribes;
    var fields := Payload(e, at, model);
    PayloadPlain(e, at, model);
    assert Distinct(fields);
    hide Plain;
    hide Distinct;
    GetAt(fields, 0);
    GetAt(fields, 1);
    GetAt(fields, 2);
    GetAt(fields, 3);
    GetAt(fields, 4);
    ChoiceFields(e);
    if e.ErrorEvent? {
      hide SaysFailure;
      FailureFields();
      GetAt(fields, 5);
    } else {
      GetMissing(fields, "error");
    }
  }

  /** Any JSON reader finds the id, the time, the model, the delta, the finish reason and the failure of
      an event in its line. */
  lemma WireFields(e: Event, at: Stamp, model: string)
    requires !e.DoneEvent?
    ensures var line := DataLine(e, at, model);
      && StartsWith(line, "data: ")
      && exists fields :: Loads(line[6..]) == Some(Obj(fields)) && Describes(fields, e, at, model)
  {
    hide Payload;
    hide Dumps;
    hide Loads;
    hide Describes;
    var fields := Payload(e, at, model);
    PayloadPlain(e, at, model);
    LoadsDumps(Obj(fields), "", "");
    assert "" + Dumps(Obj(fields)) + "" == Dumps(Obj(fields));
    HeaderFields(e, at, model);
    assert DataLine(e, at, model)[6..] == Dumps(Obj(fields));
  }

  lemma DescribedOnce(fields: Dict<string, Json>, e: Event, f: Event, at: Stamp, bt: Stamp, model: string,
                      other: string)
    requires Describes(fields, e, at, model) && Describes(fields, f, bt, other)
    requires !e.DoneEvent? && !f.DoneEvent?
    ensures e == f && model == other
  {
    hide Get;
  }

  /** Different events have different lines, whatever their ids and times. */
  lemma WireDeterminesEvent(e: Event, f: Event, at: Stamp, bt: Stamp, model: string, other: string)
    requires DataLine(e, at, model) == DataLine(f, bt, other)
    ensures e == f && (!e.DoneEvent? ==> model == other)
  {
    hide Payload;
    hide Dumps;
    hide Loads;
    hide Describes;
    var line := DataLine(e, at, model);
    DoneIsNoJson();
    if e.DoneEvent? {
      assert line[6..] == "[DONE]";
    } else {
      WireFields(e, at, model);
    }
    if f.DoneEvent? {
      assert line[6..] == "[DONE]";
    } else {
      WireFields(f, bt, other);
    }
    if !e.DoneEvent? && !f.DoneEvent? {
      var fields :| Loads(line[6..]) == Some(Obj(fields)) && Describes(fields, e, at, model);
      DescribedOnce(fields, e, f, at, bt, model, other);
    }
  }

  lemma DoneIsNoJson()
    ensures Loads("[DONE]") == None
  {
    var s, body := "[DONE]", "DONE]";
    assert s[1..] == body && SkipSpace(s) == s && SkipSpace(body) == body;
    NoNumber(body);
    assert ParseValue(body) == None;
    assert ParseItems(body, []) == None;
  }

  lemma NoNumber(s: string)
    requires s != [] && s[0] == 'D'
    ensures ScanNumber(s) == None
  {
    assert s[0..] == s;
  }

  /** The non-empty texts of the events, in order. */
  function Texts(events: seq<Event>): seq<string> {
    if events == [] then []
    else (if TextOf(events[0]) != "" then [TextOf(events[0])] else []) + Texts(events[1..])
  }

  lemma SplitRendered(e: Event, at: Stamp, model: string, rest: string)
    ensures SplitLines(Render(e, at, model) + rest) == [DataLine(e, at, model), ""] + SplitLines(rest)
  {
    hide DataLine;
    hide SplitLines;
    var line := DataLine(e, at, model);
    ExtractDataLine(e, at, model);
    SplitLinesFirst(line, "\n" + rest);
    SplitLinesFirst("", rest);
    assert line + "\n" + ("\n" + rest) == Render(e, at, model) + rest;
    assert "" + "\n" + rest == "\n" + rest;
  }

  lemma ReadTwoLines(line: string, text: string, rest: seq<string>)
    requires ExtractSseContent(line) == Ok(text)
    ensures ReadLines([line, ""] + rest)
         == Reading((if text != "" then [text] else []) + ReadLines(rest).chunks, ReadLines(rest).failed)
  {
    var lines := [line, ""] + rest;
    assert lines[1..] == [""] + rest;
    assert lines[1..][1..] == rest;
    hide ExtractSseContent;
    ExtractBlank();
  }

  lemma ExtractBlank()
    ensures ExtractSseContent("") == Ok("")
  {}

  /** Reading the rendered text of any sequence of events line by line yields exactly the non-empty
      texts of the events, in order, and never raises. */
  lemma {:induction false} ReadRendered(events: seq<Event>, stamps: seq<Stamp>, model: string)
    requires |events| == |stamps|
    ensures ReadLines(SplitLines(RenderAll(events, stamps, model))) == Reading(Texts(events), false)
  {
    if events != [] {
      hide SplitLines;
      hide DataLine;
      hide Render;
      hide ExtractSseContent;
      hide ReadLines;
      var e, at, rest := events[0], stamps[0], RenderAll(events[1..], stamps[1..], model);
      SplitRendered(e, at, model, rest);
      ExtractDataLine(e, at, model);
      ReadTwoLines(DataLine(e, at, model), TextOf(e), SplitLines(rest));
      ReadRendered(events[1..], stamps[1..], model);
    }
  }
}
