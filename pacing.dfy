/** The StreamOptimizer of streamOptimizer.js: it re-times one text delta by
    yielding it either in fixed-size chunks (long text) or one character at a
    time (shorter text), and sleeping after every part for a delay chosen
    from the total length. */
module Pacing {
  import opened Text

  /** The argument given to `_sleep`, in seconds. The middle branch of
      calculateDelay interpolates with Math.log on floating-point numbers; it
      is kept uninterpreted and recorded by the length it was computed from. */
  datatype Delay = Seconds(seconds: real) | LogInterpolated(textLength: nat)

  /** One observable step of the `process` generator: a yielded part, or the
      sleep that follows it. */
  datatype Step<T> = Yield(part: T) | Sleep(delay: Delay)

  /** Every part, in order, each followed by exactly one sleep of `delay`. */
  function Paced<T>(parts: seq<T>, delay: Delay): (steps: seq<Step<T>>)
    ensures |steps| == 2 * |parts|
  {
    if parts == [] then [] else [Yield(parts[0]), Sleep(delay)] + Paced(parts[1..], delay)
  }

  /** Step 2k yields part k and step 2k+1 is the sleep after it. */
  lemma {:induction false} PacedAt<T>(parts: seq<T>, delay: Delay, k: nat)
    requires k < |parts|
    ensures Paced(parts, delay)[2 * k] == Yield(parts[k])
    ensures Paced(parts, delay)[2 * k + 1] == Sleep(delay)
  {
    if k > 0 {
      PacedAt(parts[1..], delay, k - 1);
    }
  }

  lemma {:induction false} PacedAppend<T>(parts: seq<T>, last: T, delay: Delay)
    ensures Paced(parts + [last], delay) == Paced(parts, delay) + [Yield(last), Sleep(delay)]
  {
    if parts != [] {
      assert (parts + [last])[1..] == parts[1..] + [last];
      PacedAppend(parts[1..], last, delay);
    }
  }

  /** The parts of a paced sequence, in order. */
  function PartsOf<T>(steps: seq<Step<T>>): (parts: seq<T>)
  {
    if steps == [] then []
    else if steps[0].Yield? then [steps[0].part] + PartsOf(steps[1..])
    else PartsOf(steps[1..])
  }

  /** The sleeps of a paced sequence, in order. */
  function SleepsOf<T>(steps: seq<Step<T>>): (delays: seq<Delay>)
  {
    if steps == [] then []
    else if steps[0].Sleep? then [steps[0].delay] + SleepsOf(steps[1..])
    else SleepsOf(steps[1..])
  }

  /** Pacing yields the given parts and nothing else, and sleeps the same
      delay once for each of them. */
  lemma {:induction false} PacedParts<T>(parts: seq<T>, delay: Delay)
    ensures PartsOf(Paced(parts, delay)) == parts
    ensures SleepsOf(Paced(parts, delay)) == seq(|parts|, _ => delay)
  {
    if parts != [] {
      PacedParts(parts[1..], delay);
      var steps := Paced(parts, delay);
      assert steps[1..][1..] == Paced(parts[1..], delay);
    }
  }

  /** `for (const char of text)`: one single-character string per character. */
  function Chars(text: string): (parts: seq<string>)
  {
    seq(|text|, i requires 0 <= i < |text| => [text[i]])
  }

  lemma {:induction false} ConcatChars(text: string)
    ensures Concat(Chars(text)) == text
  {
    if text != [] {
      assert Chars(text)[1..] == Chars(text[1..]);
      ConcatChars(text[1..]);
      assert text == [text[0]] + text[1..];
    }
  }

  /** What splitTextIntoChunks returns: consecutive pieces of `size`
      characters, the last one possibly shorter (`substring` clamps at the
      end of the text). */
  function ChunksOf(text: string, size: nat): (chunks: seq<string>)
    requires size >= 1
    decreases |text|
  {
    if text == [] then []
    else if |text| <= size then [text]
    else [text[..size]] + ChunksOf(text[size..], size)
  }

  /** The chunks concatenate back to the text. */
  lemma {:induction false} ConcatChunks(text: string, size: nat)
    requires size >= 1
    ensures Concat(ChunksOf(text, size)) == text
    decreases |text|
  {
    if |text| > size {
      ConcatChunks(text[size..], size);
      assert text == text[..size] + text[size..];
    }
  }

  /** Every chunk but the last has exactly `size` characters, the last has
      between 1 and `size`, and there are ceil(|text| / size) of them: the
      one count m with (m - 1) * size < |text| <= m * size. */
  lemma {:induction false} ChunkSizes(text: string, size: nat)
    requires size >= 1
    ensures var chunks := ChunksOf(text, size);
      (|chunks| - 1) * size < |text| <= |chunks| * size &&
      (forall k :: 0 <= k < |chunks| - 1 ==> |chunks[k]| == size) &&
      (chunks != [] ==> 1 <= |chunks[|chunks| - 1]| <= size)
    decreases |text|
  {
    var chunks := ChunksOf(text, size);
    if |text| > size {
      var rest := ChunksOf(text[size..], size);
      ChunkSizes(text[size..], size);
      assert chunks == [text[..size]] + rest;
      var m := |rest|;
      assert (m + 1) * size == m * size + size;
      assert forall k :: 1 <= k < |chunks| ==> chunks[k] == rest[k - 1];
    }
  }

  class StreamOptimizer {
    const minDelay: real
    const maxDelay: real
    const shortTextThreshold: nat
    const longTextThreshold: nat
    const chunkSize: nat

    /** The thresholds are ordered and a chunk holds at least one character
        (with a chunk size of 0 the chunking loop of the source never ends). */
    predicate Valid()
    {
      0 < shortTextThreshold < longTextThreshold && 1 <= chunkSize
    }

    /** The configuration is copied unchanged. */
    constructor (minDelay: real, maxDelay: real, shortTextThreshold: nat, longTextThreshold: nat, chunkSize: nat)
      requires 0 < shortTextThreshold < longTextThreshold && 1 <= chunkSize
      ensures Valid()
      ensures this.minDelay == minDelay && this.maxDelay == maxDelay
      ensures this.shortTextThreshold == shortTextThreshold
      ensures this.longTextThreshold == longTextThreshold
      ensures this.chunkSize == chunkSize
    {
      this.minDelay := minDelay;
      this.maxDelay := maxDelay;
      this.shortTextThreshold := shortTextThreshold;
      this.longTextThreshold := longTextThreshold;
      this.chunkSize := chunkSize;
    }

    /** calculateDelay: the short-text test comes first; texts at least as
        long as the long threshold get the minimum delay. */
    function CalculateDelay(textLength: nat): (d: Delay)
      ensures textLength <= shortTextThreshold ==> d == Seconds(maxDelay)
      ensures shortTextThreshold < textLength && longTextThreshold <= textLength ==> d == Seconds(minDelay)
      ensures shortTextThreshold < textLength < longTextThreshold ==> d == LogInterpolated(textLength)
    {
      if textLength <= shortTextThreshold then Seconds(maxDelay)
      else if textLength >= longTextThreshold then Seconds(minDelay)
      else LogInterpolated(textLength)
    }

    /** splitTextIntoChunks: an index loop that steps by chunkSize. */
    method SplitTextIntoChunks(text: string) returns (chunks: seq<string>)
      requires Valid()
      ensures chunks == ChunksOf(text, chunkSize)
    {
      chunks := [];
      var i: nat := 0;
      while i < |text|
        invariant var from := if i < |text| then i else |text|;
          chunks + ChunksOf(text[from..], chunkSize) == ChunksOf(text, chunkSize)
        decreases |text| - i
      {
        var end := if i + chunkSize < |text| then i + chunkSize else |text|;
        var rest := text[i..];
        if |rest| > chunkSize {
          assert rest[..chunkSize] == text[i..end];
          assert rest[chunkSize..] == text[end..];
        } else {
          assert rest == text[i..end];
          assert text[end..] == [];
        }
        assert ChunksOf(rest, chunkSize) == [text[i..end]] + ChunksOf(text[end..], chunkSize);
        chunks := chunks + [text[i..end]];
        i := i + chunkSize;
      }
      assert text[|text|..] == [];
    }

    /** What `process` yields: nothing for empty text, the chunks of a long
        text, and otherwise one character at a time. */
    function Yields(text: string): (parts: seq<string>)
      requires Valid()
    {
      if text == "" then []
      else if |text| >= longTextThreshold then ChunksOf(text, chunkSize)
      else Chars(text)
    }

    /** The `process` generator, with each `yield` and `_sleep` recorded as a
        step in the order they happen. */
    method Process(text: string) returns (steps: seq<Step<string>>)
      requires Valid()
      ensures steps == Paced(Yields(text), CalculateDelay(|text|))
    {
      steps := [];
      if text == "" {
        return;
      }
      var delay := CalculateDelay(|text|);
      var parts;
      if |text| >= longTextThreshold {
        parts := SplitTextIntoChunks(text);
      } else {
        parts := Chars(text);
      }
      for k := 0 to |parts|
        invariant steps == Paced(parts[..k], delay)
      {
        PacedAppend(parts[..k], parts[k], delay);
        assert parts[..k + 1] == parts[..k] + [parts[k]];
        steps := steps + [Yield(parts[k]), Sleep(delay)];
      }
      assert parts[..|parts|] == parts;
    }

    /** Everything `process` yields concatenates back to its input. */
    lemma ProcessKeepsText(text: string)
      requires Valid()
      ensures Concat(Yields(text)) == text
    {
      if text != "" {
        if |text| >= longTextThreshold {
          ConcatChunks(text, chunkSize);
        } else {
          ConcatChars(text);
        }
      }
    }

    /** The two pacing regimes of `process`: a long text is yielded as its
        chunks with the minimum delay after each; a shorter, non-empty text is
        yielded character by character, with the maximum delay when it is no
        longer than the short threshold. Empty text yields and sleeps nothing. */
    lemma ProcessRegimes(text: string)
      requires Valid()
      ensures var steps := Paced(Yields(text), CalculateDelay(|text|));
        (text == "" ==> steps == []) &&
        (|text| >= longTextThreshold ==>
          PartsOf(steps) == ChunksOf(text, chunkSize) &&
          SleepsOf(steps) == seq(|ChunksOf(text, chunkSize)|, _ => Seconds(minDelay))) &&
        (0 < |text| < longTextThreshold ==>
          PartsOf(steps) == Chars(text) &&
          (forall k :: 0 <= k < |PartsOf(steps)| ==> |PartsOf(steps)[k]| == 1) &&
          SleepsOf(steps) == seq(|text|, _ => CalculateDelay(|text|))) &&
        (0 < |text| <= shortTextThreshold ==> SleepsOf(steps) == seq(|text|, _ => Seconds(maxDelay)))
    {
      PacedParts(Yields(text), CalculateDelay(|text|));
    }
  }
}
