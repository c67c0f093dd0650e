/** The chat route's handler for the upstream `data` events: received text is
    appended to a carry-over buffer, every complete line is examined, and each
    `data: ` line with delta content is re-encoded as a `0:{json}` frame for the
    browser. Only the `data: ` prefix and the `[DONE]` sentinel of the
    text/event-stream format (section 9.2 of the WHATWG HTML Standard) are
    recognised.

    Each event's bytes are turned into text on their own (`chunk.toString()`, the
    WHATWG UTF-8 decoder); parsing the JSON payload and reaching
    `choices[0].delta.content` is a parameter of the handler. */
module SseReframe {
  import opened Wrappers
  import opened JsText
  import Utf8
  import JsonFrame

  const DataPrefix := "data: "
  const DoneLine := "data: [DONE]"

  /** `JSON.parse(json).choices[0].delta.content`: None when parsing throws or a
      link of the chain is missing. */
  type DeltaReader = string -> Option<string>

  /** The JSON text of a complete line: the trimmed line after `data: `, for a
      `data: ` line other than the sentinel; None for every other line. */
  function Payload(line: string): (json: Option<string>)
    ensures json.Some? <==> StartsWith(Trim(line), DataPrefix) && Trim(line) != DoneLine
    ensures json.Some? ==> json.value == Trim(line)[|DataPrefix|..]
  {
    var t := Trim(line);
    if t == "" || t == DoneLine then None
    else if StartsWith(t, DataPrefix) then Some(t[|DataPrefix|..])
    else None
  }

  /** The frames one complete line produces: one frame exactly when the line has
      a payload with non-empty delta content, and none otherwise (a parse failure
      is skipped). */
  function LineFrames(read: DeltaReader, line: string): (frames: seq<string>)
    ensures |frames| <= 1
    ensures |frames| == 1 <==>
      Payload(line).Some? && read(Payload(line).value).Some? && read(Payload(line).value).value != ""
    ensures |frames| == 1 ==> frames[0] == JsonFrame.Frame(read(Payload(line).value).value)
  {
    match Payload(line)
    case None => []
    case Some(json) =>
      match read(json)
      case Some(content) => if content != "" then [JsonFrame.Frame(content)] else []
      case None => []
  }

  /** The frames a run of complete lines produces, in line order. */
  function FramesOf(read: DeltaReader, lines: seq<string>): seq<string>
    decreases |lines|
  {
    if lines == [] then []
    else FramesOf(read, lines[..|lines| - 1]) + LineFrames(read, lines[|lines| - 1])
  }

  lemma {:induction false} FramesOfAppend(read: DeltaReader, a: seq<string>, b: seq<string>)
    ensures FramesOf(read, a + b) == FramesOf(read, a) + FramesOf(read, b)
    decreases |b|
  {
    if b == [] {
      assert a + b == a;
    } else {
      var init := b[..|b| - 1];
      assert (a + b)[..|a + b| - 1] == a + init;
      assert (a + b)[|a + b| - 1] == b[|b| - 1];
      FramesOfAppend(read, a, init);
    }
  }

  lemma FramesOfStep(read: DeltaReader, lines: seq<string>, i: nat)
    requires i < |lines|
    ensures FramesOf(read, lines[..i + 1]) == FramesOf(read, lines[..i]) + LineFrames(read, lines[i])
  {
    assert lines[..i + 1][..i] == lines[..i];
  }

  /** The handler's loop over the complete lines: the frames of each line, in
      line order. */
  method FramesLoop(read: DeltaReader, complete: seq<string>) returns (frames: seq<string>)
    ensures frames == FramesOf(read, complete)
  {
    frames := [];
    var i := 0;
    while i < |complete|
      invariant 0 <= i <= |complete|
      invariant frames == FramesOf(read, complete[..i])
    {
      FramesOfStep(read, complete, i);
      frames := frames + LineFrames(read, complete[i]);
      i := i + 1;
    }
    assert complete[..i] == complete;
  }

  /** The lines, each followed by a line feed. */
  function Terminated(lines: seq<string>): string
    decreases |lines|
  {
    if lines == [] then []
    else Terminated(lines[..|lines| - 1]) + lines[|lines| - 1] + "\n"
  }

  lemma {:induction false} TerminatedAppend(a: seq<string>, b: seq<string>)
    ensures Terminated(a + b) == Terminated(a) + Terminated(b)
    decreases |b|
  {
    if b == [] {
      assert a + b == a;
    } else {
      var init := b[..|b| - 1];
      assert (a + b)[..|a + b| - 1] == a + init;
      assert (a + b)[|a + b| - 1] == b[|b| - 1];
      TerminatedAppend(a, init);
    }
  }

  /** Joining with line feeds is terminating every part but the last. */
  lemma {:induction false} JoinIsTerminated(parts: seq<string>)
    requires parts != []
    ensures Join(parts, "\n") == Terminated(parts[..|parts| - 1]) + parts[|parts| - 1]
    decreases |parts|
  {
    var init := parts[..|parts| - 1];
    var last := parts[|parts| - 1];
    assert parts == init + [last];
    if init != [] {
      JoinAppend(init, "\n", last);
      JoinIsTerminated(init);
      assert init[..|init| - 1] == parts[..|parts| - 2];
    }
  }

  /** No line holds a line feed. */
  predicate LineFree(lines: seq<string>) {
    forall i :: 0 <= i < |lines| ==> '\n' !in lines[i]
  }

  /** Splitting what was received at line feeds gives back the processed lines
      and the buffer: no partial line has been processed and no line is lost,
      whatever the chunking of the input was. */
  lemma LinesOfReceived(processed: seq<string>, buffer: string)
    requires '\n' !in buffer && LineFree(processed)
    ensures Split(Terminated(processed) + buffer, '\n') == processed + [buffer]
  {
    var parts := processed + [buffer];
    assert parts[..|parts| - 1] == processed;
    JoinIsTerminated(parts);
    forall i | 0 <= i < |parts| ensures '\n' !in parts[i] {
      if i < |processed| { assert parts[i] == processed[i]; }
    }
    SplitJoin(parts, '\n');
  }

  /** A character whose bytes arrive in two events is not recovered: each event
      is decoded on its own, the head becomes one U+FFFD and every byte of the
      tail another, wherever the cut falls. */
  lemma SplitCharacterIsReplaced(c: char, k: nat)
    requires 0 < k < |Utf8.EncodeChar(c)|
    ensures var bs := Utf8.EncodeChar(c);
      && Utf8.Decode(bs) == [c]
      && Utf8.Decode(bs[..k]) + Utf8.Decode(bs[k..]) == Utf8.Replacements(1 + |bs| - k)
      && Utf8.Decode(bs[..k]) + Utf8.Decode(bs[k..]) != Utf8.Decode(bs)
  {
    Utf8.DecodeOneChar(c);
    Utf8.SplitCharacter(c, k);
  }

  /** Appending received text and splitting off the complete lines keeps the
      received text equal to the terminated lines followed by the buffer. */
  lemma ReceiveStep(processed: seq<string>, buffer: string, text: string)
    requires LineFree(processed)
    ensures var lines := Split(buffer + text, '\n');
      && Terminated(processed) + buffer + text == Terminated(processed + lines[..|lines| - 1]) + lines[|lines| - 1]
      && LineFree(processed + lines[..|lines| - 1])
  {
    var lines := Split(buffer + text, '\n');
    var complete := lines[..|lines| - 1];
    var last := lines[|lines| - 1];
    JoinSplit(buffer + text, '\n');
    JoinIsTerminated(lines);
    assert buffer + text == Terminated(complete) + last;
    TerminatedAppend(processed, complete);
    calc {
      Terminated(processed) + buffer + text;
      Terminated(processed) + (buffer + text);
      Terminated(processed) + (Terminated(complete) + last);
      Terminated(processed) + Terminated(complete) + last;
      Terminated(processed + complete) + last;
    }
    forall k | 0 <= k < |processed + complete| ensures '\n' !in (processed + complete)[k] {
      if k >= |processed| { assert (processed + complete)[k] == lines[k - |processed|]; }
    }
  }

  /** The `data` handler's state for one upstream response. */
  class Reframer {
    /** The carried-over text after the last line feed. */
    var buffer: string
    /** The frames enqueued for the browser so far. */
    var enqueued: seq<string>
    /** All text received so far. */
    ghost var received: string
    /** The complete lines examined so far. */
    ghost var processed: seq<string>
    const read: DeltaReader

    /** The buffer holds no line feed, the received text is the processed lines,
        each with its line feed, followed by the buffer, and the output is the
        frames of the processed lines. */
    ghost predicate Valid()
      reads this
    {
      && '\n' !in buffer
      && LineFree(processed)
      && received == Terminated(processed) + buffer
      && enqueued == FramesOf(read, processed)
    }

    constructor (read: DeltaReader)
      ensures Valid() && this.read == read
      ensures buffer == [] && enqueued == [] && received == [] && processed == []
    {
      buffer := [];
      enqueued := [];
      received := [];
      processed := [];
      this.read := read;
    }

    /** The frames of `complete`, appended in line order. */
    method EnqueueFrames(complete: seq<string>)
      modifies `enqueued
      ensures enqueued == old(enqueued) + FramesOf(read, complete)
    {
      var frames := FramesLoop(read, complete);
      enqueued := enqueued + frames;
    }

    /** One `data` event carrying the bytes `chunk`. */
    method OnData(chunk: seq<Utf8.Byte>)
      requires Valid()
      modifies this
      ensures Valid()
      ensures received == old(received) + Utf8.Decode(chunk)
      ensures var lines := Split(old(buffer) + Utf8.Decode(chunk), '\n');
        && processed == old(processed) + lines[..|lines| - 1]
        && buffer == lines[|lines| - 1]
        && enqueued == old(enqueued) + FramesOf(read, lines[..|lines| - 1])
    {
      var text := Utf8.Decode(chunk);
      Receive(text);
    }

    /** The handler's work once the event's bytes are text. */
    method Receive(text: string)
      requires Valid()
      modifies this
      ensures Valid()
      ensures received == old(received) + text
      ensures var lines := Split(old(buffer) + text, '\n');
        && processed == old(processed) + lines[..|lines| - 1]
        && buffer == lines[|lines| - 1]
        && enqueued == old(enqueued) + FramesOf(read, lines[..|lines| - 1])
    {
      var lines := Split(buffer + text, '\n');
      var complete := lines[..|lines| - 1];
      ReceiveStep(processed, buffer, text);
      FramesOfAppend(read, processed, complete);
      EnqueueFrames(complete);
      buffer := lines[|lines| - 1];
      processed := processed + complete;
      received := received + text;
    }
  }
}
