/** How server.js:53-66 treats one `data: ` line: the `[DONE]` sentinel is
    answered with the `[DONE]` event; a line that does not parse, or carries
    no text, is written back verbatim; a line with a text delta is re-emitted
    through the StreamOptimizer, one rebuilt payload per yielded part.

    JSON.parse is the function `parse` (None where it throws); JSON.stringify
    is the function `stringify`, used only to render writes as text. */
module Events {
  import opened Text
  import opened Json
  import opened Pacing

  const DataPrefix: string := "data: "
  const DoneEvent: string := "data: [DONE]\n\n"

  /** What one `res.write` sends: text copied from upstream, or a rebuilt
      payload that the source serialises with JSON.stringify. */
  datatype Frame = Verbatim(text: string) | Rebuilt(payload: Json)

  /** One effect on the client connection, in order: a write, or the
      optimizer's sleep before the next one. */
  datatype Event = Write(frame: Frame) | Pause(delay: Delay)

  /** The text a frame puts on the wire. */
  function Wire(frame: Frame, stringify: Json -> string): string
  {
    match frame
    case Verbatim(text) => text
    case Rebuilt(payload) => DataPrefix + stringify(payload) + "\n\n"
  }

  /** `line.substring('data: '.length)`. */
  function PayloadOf(line: string): string
  {
    if |line| >= |DataPrefix| then line[|DataPrefix|..] else ""
  }

  /** The ways server.js:54-65 treats one data line. */
  datatype Kind =
    | Done                                   // the payload trims to [DONE]
    | ParseFailure                           // JSON.parse throws
    | NoText                                 // content missing or falsy
    | Throws                                 // a TypeError before any write
    | Text(at: Located, text: string)        // a non-empty content string
    | Items(at: Located, items: seq<Json>)   // an array content, iterated by `process`

  function Classify(parse: string -> Option<Json>, line: string): Kind
  {
    var payload := PayloadOf(line);
    if Trim(payload) == "[DONE]" then Done
    else match parse(payload)
      case None => ParseFailure
      case Some(data) =>
        // `null.choices` raises a TypeError, caught like a parse failure
        if data.JNull? then Throws
        else match FindContent(data)
        case None => NoText
        case Some(at) =>
          if !Truthy(at.content) then NoText
          else if at.content.JString? then Text(at, at.content.s)
          else if at.content.JArray? then Items(at, at.content.items)
          // numbers, `true` and objects are not iterable: `process` throws
          else Throws
  }

  /** `{ ...data, choices: [{ ...data.choices[0], delta: { content: part } }] }`:
      every top-level field but `choices` is kept, `choices` holds exactly one
      choice that keeps choice 0's fields but `delta`, and `delta` holds only
      the new content. */
  function Rebuild(top: map<string, Json>, choice: map<string, Json>, part: Json): (payload: Json)
    ensures payload.JObject? && payload.fields.Keys == top.Keys + {"choices"}
    ensures forall key :: key in top && key != "choices" ==> payload.fields[key] == top[key]
    ensures payload.fields["choices"].JArray? && |payload.fields["choices"].items| == 1
    ensures var c := payload.fields["choices"].items[0];
      c.JObject? && c.fields.Keys == choice.Keys + {"delta"} &&
      (forall key :: key in choice && key != "delta" ==> c.fields[key] == choice[key]) &&
      c.fields["delta"] == JObject(map["content" := part])
  {
    JObject(top["choices" := JArray([JObject(choice["delta" := JObject(map["content" := part])])])])
  }

  /** The event for one step of the optimizer inside the `for await` loop. */
  function EventOf(top: map<string, Json>, choice: map<string, Json>, step: Step<Json>): Event
  {
    match step
    case Yield(part) => Write(Rebuilt(Rebuild(top, choice, part)))
    case Sleep(delay) => Pause(delay)
  }

  function Relay(top: map<string, Json>, choice: map<string, Json>, steps: seq<Step<Json>>): (events: seq<Event>)
    ensures |events| == |steps|
  {
    seq(|steps|, i requires 0 <= i < |steps| => EventOf(top, choice, steps[i]))
  }

  /** A yielded string as the JSON string it becomes in the payload. */
  function StringStep(step: Step<string>): Step<Json>
  {
    match step
    case Yield(part) => Yield(JString(part))
    case Sleep(delay) => Sleep(delay)
  }

  function StringSteps(steps: seq<Step<string>>): seq<Step<Json>>
  {
    seq(|steps|, i requires 0 <= i < |steps| => StringStep(steps[i]))
  }

  function JsonStrings(parts: seq<string>): seq<Json>
  {
    seq(|parts|, i requires 0 <= i < |parts| => JString(parts[i]))
  }

  lemma {:induction false} StringStepsPaced(parts: seq<string>, delay: Delay)
    ensures StringSteps(Paced(parts, delay)) == Paced(JsonStrings(parts), delay)
  {
    if parts != [] {
      StringStepsPaced(parts[1..], delay);
      assert JsonStrings(parts)[1..] == JsonStrings(parts[1..]);
      assert StringSteps(Paced(parts, delay))[2..] == StringSteps(Paced(parts[1..], delay));
    }
  }

  /** Everything the gateway does for one data line. */
  function LineTrace(opt: StreamOptimizer, parse: string -> Option<Json>, line: string): seq<Event>
    requires opt.Valid()
  {
    match Classify(parse, line)
    case Done => [Write(Verbatim(DoneEvent))]
    case ParseFailure => [Write(Verbatim(line + "\n\n"))]
    case NoText => [Write(Verbatim(line + "\n\n"))]
    case Throws => [Write(Verbatim(line + "\n\n"))]
    case Text(at, text) =>
      Relay(at.top, at.choice, Paced(JsonStrings(opt.Yields(text)), opt.CalculateDelay(|text|)))
    case Items(at, items) =>
      // a long array reaches `text.substring` in splitTextIntoChunks and throws
      if |items| >= opt.longTextThreshold then [Write(Verbatim(line + "\n\n"))]
      else Relay(at.top, at.choice, Paced(items, opt.CalculateDelay(|items|)))
  }

  /** LineTrace as the handler a session applies to each data line (a
      session's optimizer is always valid). */
  function Handler(opt: StreamOptimizer, parse: string -> Option<Json>): string -> seq<Event>
  {
    line => if opt.Valid() then LineTrace(opt, parse, line) else []
  }

  /** The JSON content values of the rebuilt payloads, in order. */
  function Contents(events: seq<Event>): seq<Json>
  {
    if events == [] then []
    else
      var e := events[0];
      (if e.Write? && e.frame.Rebuilt? && FindContent(e.frame.payload).Some?
       then [FindContent(e.frame.payload).value.content] else []) + Contents(events[1..])
  }

  lemma {:induction false} ContentsAppend(a: seq<Event>, b: seq<Event>)
    ensures Contents(a + b) == Contents(a) + Contents(b)
  {
    if a == [] {
      assert a + b == b;
    } else {
      assert (a + b)[1..] == a[1..] + b;
      ContentsAppend(a[1..], b);
    }
  }

  /** Concatenation of the JSON strings among the values. */
  function TextOf(values: seq<Json>): string
  {
    if values == [] then ""
    else (if values[0].JString? then values[0].s else "") + TextOf(values[1..])
  }

  lemma {:induction false} TextOfStrings(parts: seq<string>)
    ensures TextOf(JsonStrings(parts)) == Concat(parts)
  {
    if parts != [] {
      assert JsonStrings(parts)[1..] == JsonStrings(parts[1..]);
      TextOfStrings(parts[1..]);
    }
  }

  /** The rebuilt payloads carry the paced parts as their content, in order. */
  lemma {:induction false} ContentsOfRelay(top: map<string, Json>, choice: map<string, Json>, parts: seq<Json>, delay: Delay)
    ensures Contents(Relay(top, choice, Paced(parts, delay))) == parts
  {
    if parts != [] {
      var payload := Rebuild(top, choice, parts[0]);
      var head := [Write(Rebuilt(payload)), Pause(delay)];
      var rest := Relay(top, choice, Paced(parts[1..], delay));
      assert Relay(top, choice, Paced(parts, delay)) == head + rest;
      assert FindContent(payload).Some? && FindContent(payload).value.content == parts[0] by {
        var c := choice["delta" := JObject(map["content" := parts[0]])];
        assert Member(payload, "choices") == Some(JArray([JObject(c)]));
        assert FirstElement(JArray([JObject(c)])) == Some(JObject(c));
      }
      assert Contents(head[1..]) == [] by {
        assert head[1..][1..] == [];
      }
      assert Contents(head) == [parts[0]];
      ContentsAppend(head, rest);
      ContentsOfRelay(top, choice, parts[1..], delay);
    }
  }

  /** A content line is the located content string, and its trace is the
      relay of that string as the optimizer paces it. */
  lemma TextTrace(opt: StreamOptimizer, parse: string -> Option<Json>, line: string)
    requires opt.Valid()
    requires Classify(parse, line).Text?
    ensures var kind := Classify(parse, line);
      parse(PayloadOf(line)).Some? &&
      FindContent(parse(PayloadOf(line)).value) == Some(kind.at) &&
      kind.at.content == JString(kind.text) && kind.text != "" &&
      LineTrace(opt, parse, line) ==
        Relay(kind.at.top, kind.at.choice, Paced(JsonStrings(opt.Yields(kind.text)), opt.CalculateDelay(|kind.text|)))
  {
  }

  /** The `[DONE]` sentinel, with any spaces around it, produces exactly the
      `[DONE]` event; the optimizer is not involved. */
  lemma DoneLine(opt: StreamOptimizer, parse: string -> Option<Json>, pre: string, post: string)
    requires opt.Valid() && AllSpace(pre) && AllSpace(post)
    ensures LineTrace(opt, parse, DataPrefix + pre + "[DONE]" + post) == [Write(Verbatim(DoneEvent))]
  {
    var line := DataPrefix + pre + "[DONE]" + post;
    assert PayloadOf(line) == pre + "[DONE]" + post;
    TrimPadded(pre, "[DONE]", post);
  }

  /** A line is written back verbatim, followed by a blank line, when
      JSON.parse rejects it, when its content is missing or falsy, and when
      the optimizer throws on the content: a value that is neither a string
      nor an array is not iterable, and an array at least as long as the long
      threshold reaches `substring`. */
  lemma PassThrough(opt: StreamOptimizer, parse: string -> Option<Json>, line: string)
    requires opt.Valid()
    requires Trim(PayloadOf(line)) != "[DONE]"
    requires var data := parse(PayloadOf(line));
      data.None? ||
      FindContent(data.value).None? ||
      !Truthy(FindContent(data.value).value.content) ||
      !(FindContent(data.value).value.content.JString? || FindContent(data.value).value.content.JArray?) ||
      (FindContent(data.value).value.content.JArray? &&
       |FindContent(data.value).value.content.items| >= opt.longTextThreshold)
    ensures LineTrace(opt, parse, line) == [Write(Verbatim(line + "\n\n"))]
  {
  }

  /** For a content line, the contents of the emitted payloads concatenate,
      in order, to the original content string. */
  lemma ContentKept(opt: StreamOptimizer, parse: string -> Option<Json>, line: string)
    requires opt.Valid()
    requires Classify(parse, line).Text?
    ensures TextOf(Contents(LineTrace(opt, parse, line))) == Classify(parse, line).text
  {
    var kind := Classify(parse, line);
    var parts := opt.Yields(kind.text);
    var delay := opt.CalculateDelay(|kind.text|);
    TextTrace(opt, parse, line);
    ContentsOfRelay(kind.at.top, kind.at.choice, JsonStrings(parts), delay);
    TextOfStrings(parts);
    opt.ProcessKeepsText(kind.text);
  }

  /** Every payload written for a line keeps the parsed payload's envelope:
      the top-level fields but `choices`, and choice 0's fields but `delta`. */
  lemma EnvelopeKept(opt: StreamOptimizer, parse: string -> Option<Json>, line: string)
    requires opt.Valid()
    requires Classify(parse, line).Text? || Classify(parse, line).Items?
    ensures var data := parse(PayloadOf(line)).value; var at := Classify(parse, line).at;
      data == JObject(at.top) && FindContent(data) == Some(at) &&
      forall e :: e in LineTrace(opt, parse, line) && e.Write? && e.frame.Rebuilt? ==>
        exists part :: e.frame.payload == Rebuild(at.top, at.choice, part)
  {
  }

  /** Every write for a data line is a `data: ` event ended by a blank line;
      a verbatim write is the `[DONE]` event or the line itself. */
  lemma LineEvents(opt: StreamOptimizer, parse: string -> Option<Json>, stringify: Json -> string, line: string)
    requires opt.Valid() && StartsWith(line, DataPrefix)
    ensures forall e :: e in LineTrace(opt, parse, line) && e.Write? ==>
      StartsWith(Wire(e.frame, stringify), DataPrefix) && EndsWith(Wire(e.frame, stringify), "\n\n") &&
      (e.frame.Verbatim? ==> e.frame.text == DoneEvent || e.frame.text == line + "\n\n")
  {
    var events := LineTrace(opt, parse, line);
    match Classify(parse, line)
    case Text(at, text) =>
      RelayWrites(at.top, at.choice, Paced(JsonStrings(opt.Yields(text)), opt.CalculateDelay(|text|)), stringify);
    case Items(at, items) =>
      if |items| < opt.longTextThreshold {
        RelayWrites(at.top, at.choice, Paced(items, opt.CalculateDelay(|items|)), stringify);
      } else {
        assert (line + "\n\n")[..|DataPrefix|] == line[..|DataPrefix|];
      }
    case _ =>
      assert (line + "\n\n")[..|DataPrefix|] == line[..|DataPrefix|];
  }

  /** The optimizer's parts are all written as rebuilt payloads, which go on
      the wire as `data: ` events. */
  lemma RelayWrites(top: map<string, Json>, choice: map<string, Json>, steps: seq<Step<Json>>, stringify: Json -> string)
    ensures forall e :: e in Relay(top, choice, steps) && e.Write? ==>
      e.frame.Rebuilt? && StartsWith(Wire(e.frame, stringify), DataPrefix) && EndsWith(Wire(e.frame, stringify), "\n\n")
  {
    forall e | e in Relay(top, choice, steps) && e.Write?
      ensures e.frame.Rebuilt? && StartsWith(Wire(e.frame, stringify), DataPrefix) && EndsWith(Wire(e.frame, stringify), "\n\n")
    {
      var w := Wire(e.frame, stringify);
      assert w[..|DataPrefix|] == DataPrefix;
    }
  }
}
