# Smooth-Gateway streaming core in Dafny

Smooth-Gateway is an HTTP reverse proxy that sits in front of a
chat-completion API. On a streaming request it re-times the upstream
Server-Sent-Events (SSE) text deltas, so that clients see text arrive at an
even, typing-like pace. This project models the two pieces of sequential logic
behind that, and proves properties of the model.

- **The framing and rewriting loop of server.js (lines 45-69).** Upstream chunks
  are appended to a `buffer`. The text before the last blank line (`"\n\n"`) is
  cut off and split into lines, and only the lines that start with `data: ` are
  kept. Each kept line is handled in one of three ways:
  - the `[DONE]` sentinel is answered with `data: [DONE]\n\n`;
  - a line that does not parse, or carries no text, is written back verbatim;
  - a line with a text delta (`choices[0].delta.content`) is run through the
    optimizer, and every part it yields is written as a rebuilt payload.
- **The `StreamOptimizer` class of streamOptimizer.js.** `calculateDelay`
  picks a delay from the text length. `splitTextIntoChunks` cuts text into
  fixed-size pieces. The `process` generator yields those pieces (long text)
  or single characters (shorter text), and sleeps for the delay after each one.

Modules, in dependency order:

- `text.dfy` (`Text`): the JavaScript string operations the loop relies on:
  `lastIndexOf('\n\n')`, `split('\n')`, `trim()`, `startsWith`, and joining
  yielded parts.
- `json.dfy` (`Json`): the decoded payload as an abstract JSON value, JavaScript
  truthiness, and the optional-chaining lookup `choices?.[0]?.delta?.content`.
- `pacing.dfy` (`Pacing`): the `StreamOptimizer` class. Its configuration is a
  set of `const` fields. `process` is a method that records each `yield` and
  each `_sleep` as a step. `splitTextIntoChunks` keeps its index loop.
- `events.dfy` (`Events`): what one `data: ` line produces.
  - `Classify` gives the line's kind. `LineTrace` gives the writes and sleeps
    that follow from it.
  - `Rebuild` is the payload rebuild on line 61.
  - These come with the lemmas about `[DONE]`, pass-through, content and
    envelope preservation.
- `gateway.dfy` (`Gateway`): the stream loop.
  - A `Session` class holds the `buffer` and the client-side `trace` as fields.
    Its methods mirror the loops of server.js: `Feed` is one turn of the
    `for await` loop, `TakeBlock` one turn of the inner `while` loop, and
    `HandleLines` is the `for (const line of eventLines)` loop.
  - `HandleStream` drives a session over every upstream chunk.

How the environment is modelled:

- **JSON codec.** `JSON.parse` is a parameter `parse: string -> Option<Json>`,
  with `None` where it throws. `JSON.stringify` is a parameter `stringify`,
  used only by `Wire` to render a rebuilt payload as text.
- **Writes and sleeps.** Each `res.write` is an `Event.Write` of a `Frame`:
  either text copied from upstream, or a rebuilt payload. Each `_sleep` is an
  `Event.Pause`.
- **Chunks.** Upstream chunks arrive as already-decoded strings.

Behaviour taken from the JavaScript semantics of the code and kept in the
model:

- A `null` payload makes `originalData.choices` throw a TypeError. The
  `catch` then writes the line back verbatim.
- A truthy content that is neither a string nor an array (a number, `true`,
  an object) is rejected by `process`, which throws on it. Such a line is also
  written back verbatim.
- An array content is iterated element by element, like a string.
  - If it is at least as long as the long threshold, it reaches
    `text.substring` and throws before anything is written, so the line goes
    back verbatim.
  - A shorter array is written as one rebuilt payload per element. An empty
    array writes nothing.

Two things one might expect from the configuration and the streaming
loop are not in the code, and the model follows the code:

- The comments at config.js:30-35 describe the optimizer speeding up once
  more than `bufferThreshold` characters are waiting. streamOptimizer.js
  never reads `bufferThreshold`. It paces each delta on its own, using only
  `shortTextThreshold`, `longTextThreshold` and `chunkSize`.
- server.js writes nothing after its loop. An unterminated event left in the
  buffer when the upstream ends is dropped.

config.js defines neither threshold that the constructor reads. The model
therefore takes them as constructor parameters, and `StreamOptimizer.Valid`
demands `0 < shortTextThreshold < longTextThreshold` and `1 <= chunkSize`.
With a `chunkSize` of 0, the chunking loop never ends.

## Model

| member | source | states |
|---|---|---|
| Text.LastDelimiter | server.js:48 | the result is -1 exactly when there is no `"\n\n"`; otherwise a delimiter starts there, and none starts later |
| Text.CutAtLastDelimiter | server.js:48-51 | the block before the last delimiter, the delimiter and the rest together are the buffer; the rest holds no delimiter |
| Text.SplitJoin | server.js:52 | joining the pieces of `split('\n')` with line feeds gives the text back |
| Text.SplitPieces | server.js:52 | no piece of a split contains a line feed |
| Text.SplitAtLineFeed | server.js:52 | the pieces of `x + "\n" + y` are the pieces of `x` followed by the pieces of `y` |
| Text.TrimShape | server.js:55 | `trim()` removes spaces only, and only from the two ends; what is left starts and ends with a non-space |
| Text.TrimPadded | server.js:55 | a word with non-space ends, padded with spaces on either side, trims to itself |
| Json.FindContent | server.js:58 | `choices?.[0]?.delta?.content` is found exactly when every step of the path exists; it returns the top-level fields, choice 0's fields and the content |
| Pacing.PacedAt | streamOptimizer.js:45-53 | step 2k yields part k, and step 2k+1 is the sleep after it |
| Pacing.PacedParts | streamOptimizer.js:45-53 | the steps yield exactly the parts, in order, with exactly one sleep of the one delay per part |
| Pacing.ConcatChars | streamOptimizer.js:50-53 | the single characters concatenate back to the text |
| Pacing.ConcatChunks | streamOptimizer.js:28-34 | the chunks concatenate back to the text |
| Pacing.ChunkSizes | streamOptimizer.js:28-34 | every chunk but the last has exactly `chunkSize` characters; the last has 1 to `chunkSize`; there are ceil(n / chunkSize) chunks, and none for empty text |
| Pacing.StreamOptimizer.constructor | streamOptimizer.js:4-10 | the five configuration values are copied unchanged |
| Pacing.StreamOptimizer.CalculateDelay | streamOptimizer.js:16-26 | the short test comes first (maxDelay); then lengths at or above the long threshold get minDelay; the rest get the logarithmic interpolation |
| Pacing.StreamOptimizer.SplitTextIntoChunks | streamOptimizer.js:28-34 | the index loop returns exactly the chunks of ChunksOf |
| Pacing.StreamOptimizer.Process | streamOptimizer.js:36-55 | the generator's steps are the yielded parts, each followed by one sleep of the delay computed once from the total length |
| Pacing.StreamOptimizer.ProcessKeepsText | streamOptimizer.js:36-55 | everything `process` yields concatenates back to its input |
| Pacing.StreamOptimizer.ProcessRegimes | streamOptimizer.js:37-54 | empty text: nothing is yielded and nothing sleeps; long text: the chunks, with minDelay after each; shorter text: one single-character part per character, with maxDelay when no longer than the short threshold |
| Events.Rebuild | server.js:61 | the rebuilt payload keeps every top-level field but `choices`; `choices` holds exactly one choice, which keeps choice 0's fields but `delta`; `delta` is exactly `{content: part}` |
| Events.ContentsOfRelay | server.js:60-62 | the rebuilt payloads carry the yielded parts as their content, one per part, in order |
| Events.DoneLine | server.js:54-55 | a payload that trims to `[DONE]` gives exactly one write of `data: [DONE]\n\n` and no sleep |
| Events.PassThrough | server.js:56-65 | a parse failure, a missing or falsy content, or a content the optimizer throws on, gives exactly one write of the line plus `"\n\n"` |
| Events.ContentKept | server.js:59-63 | the contents of the emitted payloads, concatenated in order, are the original content string |
| Events.EnvelopeKept | server.js:57-61 | for a content or array line, the located fields are those of the parsed payload and of its choice 0 (the lookup finds exactly them), and every payload written for the line is that envelope rebuilt around one part |
| Events.LineEvents | server.js:54-65 | every write for a data line is a `data: ` event ended by a blank line; a verbatim write is the `[DONE]` event or the line itself |
| Events.RelayWrites | server.js:60-62 | every write of a relayed part is a rebuilt payload rendered as a `data: ` event |
| Gateway.DataLines | server.js:52 | the kept lines all start with `data: `; every such line is kept; nothing else is |
| Gateway.DataLinesAppend | server.js:52 | the filter keeps order: filtering a concatenation concatenates the filtered parts |
| Gateway.NoDataLinesNoEvents | server.js:52 | a block without `data: ` lines contributes nothing |
| Gateway.EventLinesAfterBreak | server.js:50-52 | text that ends in a line feed adds no data line of its own to what follows |
| Gateway.EventLinesOfFramedBlock | server.js:50-52 | a block followed by its delimiter has the block's own data lines |
| Gateway.CutFramed | server.js:48-51 | cutting at a delimiter moves the block and its delimiter from the buffer to the framed blocks, and adds the block's events to the trace |
| Gateway.BlocksAsStream | server.js:46-68 | the events of all extracted blocks, in order, are the events of the data lines of the text they were cut from |
| Gateway.OnlyDataEvents | server.js:52-66 | for `data: ` lines, every write is a `data: ` event ended by a blank line, and a verbatim write is `[DONE]` or one of those lines |
| Gateway.BlockEvents | server.js:52-66 | only a block's `data: ` lines are ever written from it |
| Gateway.Session.constructor | server.js:45 | a session starts with an empty buffer, an empty trace and nothing received |
| Gateway.Session.RelayText | server.js:59-63 | the `for await` over `process` writes each yielded part as a rebuilt payload, with the optimizer's sleep after each |
| Gateway.Session.RelayItems | server.js:59-63 | an array content shorter than the long threshold is written one rebuilt payload per element, with one sleep after each |
| Gateway.Session.HandleLine | server.js:54-65 | one data line appends exactly its LineTrace to the trace |
| Gateway.Session.HandleLines | server.js:53-66 | the data lines are handled in order, each appending its own events |
| Gateway.Session.HandleBlock | server.js:52-66 | a complete block appends the events of its data lines, in order |
| Gateway.Session.TakeBlock | server.js:50-66 | the text before the delimiter becomes the next block and is handled; the text after it stays in the buffer |
| Gateway.Session.Feed | server.js:46-68 | after a chunk, everything received is the framed blocks followed by the buffer; the buffer holds no `"\n\n"`; the trace is that of the blocks; the new state is the cut at the last `"\n\n"` of the old buffer plus the chunk: the text before it is the one added block and the text after it is the new buffer, and with no delimiter nothing is cut, so the inner loop runs at most once |
| Gateway.HandleStream | server.js:45-69 | the trace is the events of the data lines of the complete part of the stream, in upstream order; the unterminated rest holds no delimiter and is never written |

## Left out

- HTTP plumbing (server.js:9-44, 70-117) is not modelled. This covers express
  routing, `fetch`, headers, the upstream error relay, the 500/502 handlers,
  and the non-streaming and direct-proxy branches. It is I/O and library code.
- `JSON.parse` and `JSON.stringify` are abstract parameters. The model does not
  capture object key order: objects are maps. So where `{ ...data }` places
  the rebuilt `choices` among the keys is not modelled, and neither are
  inherited properties seen by optional chaining.
- Decoding upstream bytes with `chunk.toString()` is left out. Chunks arrive as
  decoded strings, so a multi-byte character split across chunks is not
  modelled.
- Strings are sequences of characters. The gap between UTF-16 `.length` and
  the code points that `for (const char of text)` walks is glossed over.
- Pacing.StreamOptimizer.CalculateDelay: the logarithmic middle branch
  (streamOptimizer.js:23-25) uses floating point and `Math.log`. It is kept
  uninterpreted, recorded only by the length it was computed from.
- Timers are not modelled. `_sleep` (streamOptimizer.js:12-14) is recorded as
  a step, without real time.
- `bufferThreshold` (config.js:35) is not modelled, because the code never
  reads it.
- config.js and logger.js are not modelled: they are environment parsing and
  console output.
- Concurrency is not modelled. The shared `optimizer` holds only read-only
  configuration, and every request's `process` call keeps its state in locals.
- Gateway.HandleStream: its result is stated as a function of the concatenated
  text. The model does not prove that the leftover buffer is the same for every
  way of cutting that text into chunks. A `"\n\n\n"` split across two chunks
  can leave an extra leading line feed in the buffer.
