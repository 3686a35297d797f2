/** The framing loop of server.js's streaming branch (lines 45-69): the
    upstream SSE body arrives in chunks that are appended to a buffer; the
    part up to the last blank line is cut off, split into lines, and its
    `data: ` lines are handled in order; the rest stays buffered. */
module Gateway {
  import opened Text
  import opened Json
  import opened Pacing
  import opened Events

  /** `lines.filter(line => line.startsWith('data: '))`. */
  function DataLines(lines: seq<string>): (kept: seq<string>)
    ensures forall k :: 0 <= k < |kept| ==> StartsWith(kept[k], DataPrefix)
    ensures forall k :: 0 <= k < |lines| && StartsWith(lines[k], DataPrefix) ==> lines[k] in kept
    ensures forall k :: 0 <= k < |kept| ==> kept[k] in lines
  {
    if lines == [] then []
    else
      var rest := DataLines(lines[1..]);
      assert forall k :: 1 <= k < |lines| ==> lines[k] == lines[1..][k - 1];
      (if StartsWith(lines[0], DataPrefix) then [lines[0]] else []) + rest
  }

  lemma {:induction false} DataLinesAppend(a: seq<string>, b: seq<string>)
    ensures DataLines(a + b) == DataLines(a) + DataLines(b)
  {
    if a == [] {
      assert a + b == b;
    } else {
      assert (a + b)[1..] == a[1..] + b;
      DataLinesAppend(a[1..], b);
    }
  }

  /** `completeEvents.split('\n').filter(...)`: the data lines of a block. */
  function EventLines(block: string): seq<string>
  {
    DataLines(Split(block))
  }

  /** Lines of a block that do not start with `data: ` are dropped: a block
      without data lines contributes nothing. */
  lemma {:induction false} NoDataLinesNoEvents(lines: seq<string>)
    requires forall k :: 0 <= k < |lines| ==> !StartsWith(lines[k], DataPrefix)
    ensures DataLines(lines) == []
  {
    if lines != [] {
      NoDataLinesNoEvents(lines[1..]);
    }
  }

  /** The handler's events for each line, concatenated in order. */
  function Flat(handler: string -> seq<Event>, lines: seq<string>): seq<Event>
  {
    if lines == [] then [] else handler(lines[0]) + Flat(handler, lines[1..])
  }

  lemma {:induction false} FlatAppend(handler: string -> seq<Event>, a: seq<string>, b: seq<string>)
    ensures Flat(handler, a + b) == Flat(handler, a) + Flat(handler, b)
  {
    if a == [] {
      assert a + b == b;
    } else {
      assert (a + b)[1..] == a[1..] + b;
      FlatAppend(handler, a[1..], b);
    }
  }

  lemma FlatStep(handler: string -> seq<Event>, lines: seq<string>, k: nat)
    requires k < |lines|
    ensures Flat(handler, lines[..k + 1]) == Flat(handler, lines[..k]) + handler(lines[k])
  {
    FlatAppend(handler, lines[..k], [lines[k]]);
    assert lines[..k + 1] == lines[..k] + [lines[k]];
    assert Flat(handler, [lines[k]]) == handler(lines[k]);
  }

  /** Everything done for one complete block: its data lines, in order. */
  function BlockTrace(handler: string -> seq<Event>, block: string): seq<Event>
  {
    Flat(handler, EventLines(block))
  }

  /** The extracted blocks, each followed by the delimiter it was cut at. */
  function Framed(blocks: seq<string>): string
  {
    if blocks == [] then "" else Framed(blocks[..|blocks| - 1]) + blocks[|blocks| - 1] + "\n\n"
  }

  function BlocksTrace(handler: string -> seq<Event>, blocks: seq<string>): seq<Event>
  {
    if blocks == [] then []
    else BlocksTrace(handler, blocks[..|blocks| - 1]) + BlockTrace(handler, blocks[|blocks| - 1])
  }

  lemma BlocksSnoc(handler: string -> seq<Event>, blocks: seq<string>, b: string)
    ensures Framed(blocks + [b]) == Framed(blocks) + b + "\n\n"
    ensures BlocksTrace(handler, blocks + [b]) == BlocksTrace(handler, blocks) + BlockTrace(handler, b)
  {
    assert (blocks + [b])[..|blocks|] == blocks;
  }

  /** A delimiter at `b` separates the text before it from the text after. */
  lemma DelimiterSplits(buffer: string, b: int)
    requires DelimiterAt(buffer, b)
    ensures buffer == buffer[..b] + "\n\n" + buffer[b + 2..]
  {
    assert buffer[b..b + 2] == "\n\n";
    assert buffer == buffer[..b] + buffer[b..b + 2] + buffer[b + 2..];
  }

  lemma Regroup(f: string, buffer: string, block: string, rest: string)
    requires buffer == block + "\n\n" + rest
    ensures f + buffer == (f + block + "\n\n") + rest
  {
  }

  /** Cutting the buffer at a delimiter moves the text before it, with the
      delimiter, from the buffer to the framed blocks, and adds that block's
      events to the trace. */
  lemma CutFramed(handler: string -> seq<Event>, blocks: seq<string>, buffer: string, b: int)
    requires DelimiterAt(buffer, b)
    ensures Framed(blocks) + buffer == Framed(blocks + [buffer[..b]]) + buffer[b + 2..]
    ensures BlocksTrace(handler, blocks + [buffer[..b]]) == BlocksTrace(handler, blocks) + BlockTrace(handler, buffer[..b])
  {
    BlocksSnoc(handler, blocks, buffer[..b]);
    DelimiterSplits(buffer, b);
    Regroup(Framed(blocks), buffer, buffer[..b], buffer[b + 2..]);
  }

  /** What is written for an upstream text whose complete part is
      `consumed`: the events of its data lines, in order. */
  function StreamTrace(handler: string -> seq<Event>, consumed: string): seq<Event>
  {
    Flat(handler, EventLines(consumed))
  }

  /** A text that is empty or ends in a line feed adds no data line of its
      own to what follows it. */
  lemma EventLinesAfterBreak(x: string, y: string)
    requires x == "" || x[|x| - 1] == '\n'
    ensures EventLines(x + y) == EventLines(x) + EventLines(y)
  {
    if x == "" {
      assert x + y == y;
      assert EventLines(x) == [];
    } else {
      var p := x[..|x| - 1];
      assert x == p + "\n" + "";
      assert x + y == p + "\n" + y;
      SplitAtLineFeed(p, y);
      SplitAtLineFeed(p, "");
      DataLinesAppend(Split(p), Split(y));
      DataLinesAppend(Split(p), Split(""));
      assert DataLines(Split("")) == [];
      assert EventLines(x) == DataLines(Split(p));
      assert EventLines(x + y) == DataLines(Split(p)) + DataLines(Split(y));
    }
  }

  /** A block followed by its delimiter has the block's data lines. */
  lemma EventLinesOfFramedBlock(b: string)
    ensures EventLines(b + "\n\n") == EventLines(b)
  {
    assert b + "\n\n" == b + "\n" + "\n";
    SplitAtLineFeed(b, "\n");
    assert "\n" == "" + "\n" + "";
    SplitAtLineFeed("", "");
    DataLinesAppend(Split(b), Split("\n"));
  }

  /** Cutting the stream into blocks does not change which data lines are
      handled or their order: the blocks' events, in order, are the events
      of the text they were cut from. */
  lemma {:induction false} BlocksAsStream(handler: string -> seq<Event>, blocks: seq<string>)
    ensures BlocksTrace(handler, blocks) == StreamTrace(handler, Framed(blocks))
    ensures Framed(blocks) == "" || EndsWith(Framed(blocks), "\n\n")
  {
    if blocks != [] {
      var init := blocks[..|blocks| - 1];
      var b := blocks[|blocks| - 1];
      BlocksAsStream(handler, init);
      var f := Framed(init);
      assert f == "" || f[|f| - 1] == '\n' by {
        if f != "" { assert f[|f| - 2..][1] == f[|f| - 1]; }
      }
      assert Framed(blocks) == f + (b + "\n\n");
      EventLinesAfterBreak(f, b + "\n\n");
      EventLinesOfFramedBlock(b);
      FlatAppend(handler, EventLines(f), EventLines(b));
      var whole := Framed(blocks);
      assert whole[|whole| - 2..] == "\n\n";
    }
  }

  /** Every write for a block is a `data: ` event ended by a blank line; a
      verbatim write is the `[DONE]` event or a data line of the block. */
  lemma {:induction false} OnlyDataEvents(opt: StreamOptimizer, parse: string -> Option<Json>, stringify: Json -> string, lines: seq<string>)
    requires opt.Valid()
    requires forall k :: 0 <= k < |lines| ==> StartsWith(lines[k], DataPrefix)
    ensures forall e :: e in Flat(Handler(opt, parse), lines) && e.Write? ==>
      StartsWith(Wire(e.frame, stringify), DataPrefix) && EndsWith(Wire(e.frame, stringify), "\n\n") &&
      (e.frame.Verbatim? ==> e.frame.text == DoneEvent || exists line :: line in lines && e.frame.text == line + "\n\n")
  {
    if lines != [] {
      OnlyDataEvents(opt, parse, stringify, lines[1..]);
      LineEvents(opt, parse, stringify, lines[0]);
      assert Flat(Handler(opt, parse), lines) ==
        LineTrace(opt, parse, lines[0]) + Flat(Handler(opt, parse), lines[1..]);
    }
  }

  /** Only the `data: ` lines of a block are ever written. */
  lemma BlockEvents(opt: StreamOptimizer, parse: string -> Option<Json>, stringify: Json -> string, block: string)
    requires opt.Valid()
    ensures forall e :: e in BlockTrace(Handler(opt, parse), block) && e.Write? ==>
      StartsWith(Wire(e.frame, stringify), DataPrefix) && EndsWith(Wire(e.frame, stringify), "\n\n") &&
      (e.frame.Verbatim? ==>
        e.frame.text == DoneEvent ||
        exists line :: line in Split(block) && StartsWith(line, DataPrefix) && e.frame.text == line + "\n\n")
  {
    OnlyDataEvents(opt, parse, stringify, EventLines(block));
  }

  /** The framing state after one turn over the text `s`: when `s` holds a
      delimiter, the text before its last one becomes one more block and the
      text after it is the new buffer; otherwise nothing is cut. */
  ghost predicate CutAtLast(s: string, before: seq<string>, rest: string, after: seq<string>)
  {
    var b := LastDelimiter(s);
    if b == -1 then rest == s && after == before
    else rest == s[b + 2..] && after == before + [s[..b]]
  }

  /** One upstream response being relayed to one client. */
  class Session {
    const optimizer: StreamOptimizer
    const parse: string -> Option<Json>
    /** What the session does for one data line: LineTrace of its optimizer
        and parser. */
    ghost const handler: string -> seq<Event>
    /** Upstream text not yet followed by a blank line. */
    var buffer: string
    /** Everything done to the client connection so far. */
    var trace: seq<Event>
    /** All upstream text received. */
    ghost var received: string
    /** The complete blocks extracted so far, in order. */
    ghost var blocks: seq<string>

    /** The handler is LineTrace for every line (stated only where a
        LineTrace is in view, so the framing proofs treat it as opaque). */
    ghost predicate Serves()
    {
      optimizer.Valid() &&
      forall line {:trigger LineTrace(optimizer, parse, line)} :: handler(line) == LineTrace(optimizer, parse, line)
    }

    /** Nothing received is lost or reordered: it is the extracted blocks,
        each with its delimiter, followed by the buffer; the trace is that of
        the blocks; and the buffer holds no delimiter between chunks. */
    ghost predicate Valid()
      reads this
    {
      Serves() &&
      received == Framed(blocks) + buffer &&
      trace == BlocksTrace(handler, blocks) &&
      !ContainsDelimiter(buffer)
    }

    constructor (optimizer: StreamOptimizer, parse: string -> Option<Json>)
      requires optimizer.Valid()
      ensures Valid()
      ensures this.optimizer == optimizer && this.parse == parse
      ensures handler == Handler(optimizer, parse)
      ensures buffer == "" && trace == [] && received == "" && blocks == []
    {
      this.optimizer := optimizer;
      this.parse := parse;
      handler := Handler(optimizer, parse);
      buffer := "";
      trace := [];
      received := "";
      blocks := [];
    }

    /** server.js:59-62 for a content string: every part `process` yields
        is written as a rebuilt payload, and each is followed by its sleep. */
    method RelayText(at: Located, text: string)
      requires optimizer.Valid()
      modifies this`trace
      ensures trace == old(trace) +
        Relay(at.top, at.choice, Paced(JsonStrings(optimizer.Yields(text)), optimizer.CalculateDelay(|text|)))
    {
      var steps := optimizer.Process(text);
      for k := 0 to |steps|
        invariant trace == old(trace) + Relay(at.top, at.choice, StringSteps(steps[..k]))
      {
        assert StringSteps(steps[..k + 1]) == StringSteps(steps[..k]) + [StringStep(steps[k])];
        var event := match steps[k]
          case Yield(part) => Write(Rebuilt(Rebuild(at.top, at.choice, JString(part))))
          case Sleep(delay) => Pause(delay);
        trace := trace + [event];
      }
      assert steps[..|steps|] == steps;
      StringStepsPaced(optimizer.Yields(text), optimizer.CalculateDelay(|text|));
    }

    /** The same loop for an array content shorter than the long threshold:
        `for (const char of text)` steps through its elements. */
    method RelayItems(at: Located, items: seq<Json>)
      requires optimizer.Valid()
      modifies this`trace
      ensures trace == old(trace) + Relay(at.top, at.choice, Paced(items, optimizer.CalculateDelay(|items|)))
    {
      var delay := optimizer.CalculateDelay(|items|);
      for k := 0 to |items|
        invariant trace == old(trace) + Relay(at.top, at.choice, Paced(items[..k], delay))
      {
        PacedAppend(items[..k], items[k], delay);
        assert items[..k + 1] == items[..k] + [items[k]];
        trace := trace + [Write(Rebuilt(Rebuild(at.top, at.choice, items[k]))), Pause(delay)];
      }
      assert items[..|items|] == items;
    }

    /** server.js:54-65 for one data line. */
    method HandleLine(line: string)
      requires Serves()
      modifies this`trace
      ensures trace == old(trace) + handler(line)
    {
      assert handler(line) == LineTrace(optimizer, parse, line);
      match Classify(parse, line)
      case Done =>
        trace := trace + [Write(Verbatim(DoneEvent))];
      case ParseFailure =>
        trace := trace + [Write(Verbatim(line + "\n\n"))];
      case NoText =>
        trace := trace + [Write(Verbatim(line + "\n\n"))];
      case Throws =>
        trace := trace + [Write(Verbatim(line + "\n\n"))];
      case Text(at, text) =>
        RelayText(at, text);
      case Items(at, items) =>
        if |items| >= optimizer.longTextThreshold {
          trace := trace + [Write(Verbatim(line + "\n\n"))];
        } else {
          RelayItems(at, items);
        }
    }

    /** `for (const line of eventLines)`: the given data lines, in order. */
    method HandleLines(lines: seq<string>)
      requires Serves()
      modifies this`trace
      ensures trace == old(trace) + Flat(handler, lines)
    {
      for k := 0 to |lines|
        invariant trace == old(trace) + Flat(handler, lines[..k])
      {
        FlatStep(handler, lines, k);
        HandleLine(lines[k]);
      }
      assert lines[..|lines|] == lines;
    }

    /** Handles the data lines of one complete block, in order. */
    method HandleBlock(block: string)
      requires Serves()
      modifies this`trace
      ensures trace == old(trace) + BlockTrace(handler, block)
    {
      HandleLines(EventLines(block));
    }

    /** One turn of the inner `while` loop (server.js:50-66): the text before
        the delimiter at `boundary` is handled as one block and the text after
        it stays buffered. */
    method TakeBlock(boundary: int)
      requires Serves() && DelimiterAt(buffer, boundary)
      modifies this`buffer, this`trace, this`blocks
      ensures buffer == old(buffer)[boundary + 2..]
      ensures blocks == old(blocks) + [old(buffer)[..boundary]]
      ensures trace == old(trace) + BlockTrace(handler, old(buffer)[..boundary])
    {
      var completeEvents := buffer[..boundary];
      buffer := buffer[boundary + 2..];
      HandleBlock(completeEvents);
      blocks := blocks + [completeEvents];
    }

    /** One turn of the `for await` loop (server.js:47-67): append the chunk,
        then cut the buffer at its last delimiter for as long as it has one.
        What follows the last delimiter holds none, so the inner loop runs at
        most once: at most one block is added, and the new buffer holds no
        delimiter. */
    method Feed(chunk: string)
      requires Valid()
      modifies this`buffer, this`trace, this`received, this`blocks
      ensures Valid()
      ensures received == old(received) + chunk
      ensures CutAtLast(old(buffer) + chunk, old(blocks), buffer, blocks)
    {
      buffer := buffer + chunk;
      received := received + chunk;
      var boundary := LastDelimiter(buffer);
      while boundary != -1
        invariant Serves()
        invariant boundary == LastDelimiter(buffer)
        invariant received == old(received) + chunk
        invariant received == Framed(blocks) + buffer
        invariant trace == BlocksTrace(handler, blocks)
        invariant |old(blocks)| <= |blocks| && blocks[..|old(blocks)|] == old(blocks)
        invariant |blocks| == |old(blocks)| || (|blocks| == |old(blocks)| + 1 && boundary == -1)
        invariant |blocks| == |old(blocks)| ==> buffer == old(buffer) + chunk && blocks == old(blocks)
        invariant |blocks| == |old(blocks)| + 1 ==> CutAtLast(old(buffer) + chunk, old(blocks), buffer, blocks)
        decreases |buffer|
      {
        CutAtLastDelimiter(buffer);
        CutFramed(handler, blocks, buffer, boundary);
        TakeBlock(boundary);
        boundary := LastDelimiter(buffer);
      }
    }
  }

  /** Feeding chunk k extends what was received by it. */
  method FeedNext(session: Session, chunks: seq<string>, k: nat)
    requires k < |chunks| && session.Valid() && session.received == Concat(chunks[..k])
    modifies session`buffer, session`trace, session`received, session`blocks
    ensures session.Valid() && session.received == Concat(chunks[..k + 1])
  {
    ConcatAppend(chunks[..k], [chunks[k]]);
    assert chunks[..k + 1] == chunks[..k] + [chunks[k]];
    session.Feed(chunks[k]);
  }

  /** The whole streaming loop over the upstream chunks (server.js:45-67).
      What is written depends only on the complete part of the received text,
      in order; the unterminated rest is never written, as there is no
      flush after the loop. */
  method HandleStream(optimizer: StreamOptimizer, parse: string -> Option<Json>, chunks: seq<string>)
    returns (trace: seq<Event>, leftover: string)
    requires optimizer.Valid()
    ensures !ContainsDelimiter(leftover)
    ensures EndsWith(Concat(chunks), leftover)
    ensures var whole := Concat(chunks); var consumed := whole[..|whole| - |leftover|];
      (consumed == "" || EndsWith(consumed, "\n\n")) &&
      trace == StreamTrace(Handler(optimizer, parse), consumed)
  {
    var session := new Session(optimizer, parse);
    ghost var handler := session.handler;
    for k := 0 to |chunks|
      invariant session.Valid() && session.handler == handler
      invariant session.received == Concat(chunks[..k])
    {
      FeedNext(session, chunks, k);
    }
    assert chunks[..|chunks|] == chunks;
    trace, leftover := session.trace, session.buffer;
    var whole := Concat(chunks);
    assert whole == Framed(session.blocks) + leftover;
    assert whole[..|whole| - |leftover|] == Framed(session.blocks);
    BlocksAsStream(handler, session.blocks);
  }
}
