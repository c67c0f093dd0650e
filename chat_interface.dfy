/** The chat widget's message list and `handleSendMessage`: the trimmed input is
    appended as a user message, the whole history is posted to the chat route,
    and the streamed `0:{json}` frames are decoded read by read into one
    assistant message that is updated by id. The clock (`Date.now()`) and the
    network are parameters: the send takes the three clock readings and a
    function from the posted history to what the response delivers. */
module ChatInterface {
  import opened Wrappers
  import opened JsText
  import opened JsNumber
  import Utf8
  import JsonFrame
  import SseReframe
  import ChatRoute

  const DefaultWelcome := "こんにちは！民泊に関するご質問がございましたら、お気軽にお聞かせください。"
  const ErrorReply := "申し訳ございませんが、一時的な問題が発生しました。しばらくしてからもう一度お試しください。"
  const WelcomeId := "welcome"

  datatype ChatMessage = ChatMessage(id: string, content: string, role: string)

  /** What `fetch('/api/chat')` gives: a rejected request or a response that is
      not ok, or a body delivered as a sequence of reads, after which the stream
      either ends or fails (`interrupted`). */
  datatype Response = NotOk | Body(chunks: seq<seq<Utf8.Byte>>, interrupted: bool)

  /** `messages.map(msg => ({ role, content }))`. */
  function History(ms: seq<ChatMessage>): (h: seq<ChatRoute.Message>)
    ensures |h| == |ms|
    ensures forall i :: 0 <= i < |ms| ==> h[i] == ChatRoute.Message(ms[i].role, ms[i].content)
  {
    seq(|ms|, i requires 0 <= i < |ms| => ChatRoute.Message(ms[i].role, ms[i].content))
  }

  /** `prev.map(msg => msg.id === id ? { ...msg, content } : msg)`. */
  function UpdateById(ms: seq<ChatMessage>, id: string, content: string): (r: seq<ChatMessage>)
    ensures |r| == |ms|
    ensures forall i :: 0 <= i < |ms| && ms[i].id != id ==> r[i] == ms[i]
    ensures forall i :: 0 <= i < |ms| && ms[i].id == id ==>
      r[i].id == id && r[i].role == ms[i].role && r[i].content == content
  {
    seq(|ms|, i requires 0 <= i < |ms| => if ms[i].id == id then ms[i].(content := content) else ms[i])
  }

  /** A later update by the same id overrides an earlier one. */
  lemma UpdateByIdTwice(ms: seq<ChatMessage>, id: string, a: string, b: string)
    ensures UpdateById(UpdateById(ms, id, a), id, b) == UpdateById(ms, id, b)
  {
    var l := UpdateById(UpdateById(ms, id, a), id, b);
    var r := UpdateById(ms, id, b);
    assert |l| == |r|;
    forall i | 0 <= i < |ms| ensures l[i] == r[i] {
      if ms[i].id == id {
        assert l[i] == ms[i].(content := b);
      }
    }
  }

  /** The message list while `text` has been received for the assistant message
      `id`: unchanged until some content arrives. */
  function Shown(ms: seq<ChatMessage>, id: string, text: string): seq<ChatMessage> {
    if text == "" then ms else UpdateById(ms, id, text)
  }

  /** The content one line contributes: a line starting with "0:" whose JSON has a
      `content` member gives it; any other line, or one that does not parse, gives
      nothing. An empty content is falsy and gives nothing either. */
  function LineText(line: string): (t: string)
    ensures !StartsWith(line, "0:") ==> t == ""
    ensures t != "" ==> JsonFrame.DecodeLine(line) == Some(t)
  {
    match JsonFrame.DecodeLine(line)
    case Some(c) => c
    case None => ""
  }

  /** The texts `f` gives for the elements of `xs`, concatenated in order. */
  function ConcatMap<T>(f: T -> string, xs: seq<T>): string
    decreases |xs|
  {
    if xs == [] then "" else ConcatMap(f, xs[..|xs| - 1]) + f(xs[|xs| - 1])
  }

  lemma ConcatMapSnoc<T>(f: T -> string, xs: seq<T>, x: T)
    ensures ConcatMap(f, xs + [x]) == ConcatMap(f, xs) + f(x)
  {
    assert (xs + [x])[..|xs|] == xs;
  }

  lemma ConcatMapStep<T>(f: T -> string, xs: seq<T>, k: nat)
    requires k < |xs|
    ensures ConcatMap(f, xs[..k + 1]) == ConcatMap(f, xs[..k]) + f(xs[k])
  {
    assert xs[..k + 1] == xs[..k] + [xs[k]];
    ConcatMapSnoc(f, xs[..k], xs[k]);
  }

  lemma ConcatMapSingle<T>(f: T -> string, x: T)
    ensures ConcatMap(f, [x]) == f(x)
  {
    assert [x][..0] == [];
  }

  lemma ConcatMapPair<T>(f: T -> string, x: T, y: T)
    ensures ConcatMap(f, [x, y]) == f(x) + f(y)
  {
    assert [x, y] == [x] + [y];
    ConcatMapSnoc(f, [x], y);
    ConcatMapSingle(f, x);
  }

  /** The contents of a run of lines, in order. */
  function LinesText(lines: seq<string>): string {
    ConcatMap(LineText, lines)
  }

  /** The contents decoded from one read: its bytes are decoded on their own, a
      leading byte order mark is dropped, and the text is split at line feeds;
      nothing carries over to the next read. */
  function ReadText(bytes: seq<Utf8.Byte>): string {
    LinesText(Split(Utf8.DecodeDroppingBom(bytes), '\n'))
  }

  lemma Associative(a: string, b: string, c: string)
    ensures (a + b) + c == a + (b + c)
  {
  }

  /** The assistant text after a sequence of reads. */
  function StreamText(chunks: seq<seq<Utf8.Byte>>): string {
    ConcatMap(ReadText, chunks)
  }

  function ErrorMessage(failedAt: nat): ChatMessage {
    ChatMessage(NatToString(failedAt + 1), ErrorReply, "assistant")
  }

  /** The chat widget's state. */
  class Chat {
    var messages: seq<ChatMessage>
    var input: string
    var isLoading: bool

    /** The list starts with the welcome message. */
    constructor (welcomeMessage: string)
      ensures messages == [ChatMessage(WelcomeId, welcomeMessage, "assistant")]
      ensures input == "" && !isLoading
    {
      messages := [ChatMessage(WelcomeId, welcomeMessage, "assistant")];
      input := "";
      isLoading := false;
    }

    /** One line of a read: a line starting with "0:" is parsed, and a truthy
        `content` is appended to the assistant text, which then replaces the
        content of the message with that id; a parse error is ignored. */
    method ConsumeLine(id: string, ghost start: seq<ChatMessage>, text: string, line: string) returns (text': string)
      requires messages == Shown(start, id, text)
      modifies `messages
      ensures text' == text + LineText(line)
      ensures messages == Shown(start, id, text')
    {
      text' := text;
      var data := JsonFrame.DecodeLine(line);
      if data.Some? && data.value != "" {
        text' := text + data.value;
        if text != "" {
          UpdateByIdTwice(start, id, text, text');
        }
        messages := UpdateById(messages, id, text');
      }
    }

    /** The body of one read: its bytes are decoded on their own, a leading byte
        order mark is dropped, the text is split at line feeds, and each line is
        consumed in order. */
    method ConsumeRead(id: string, ghost start: seq<ChatMessage>, text: string, bytes: seq<Utf8.Byte>) returns (text': string)
      requires messages == Shown(start, id, text)
      modifies `messages
      ensures text' == text + ReadText(bytes)
      ensures messages == Shown(start, id, text')
    {
      var lines := Split(Utf8.DecodeDroppingBom(bytes), '\n');
      text' := text;
      var j := 0;
      while j < |lines|
        invariant 0 <= j <= |lines|
        invariant text' == text + LinesText(lines[..j])
        invariant messages == Shown(start, id, text')
      {
        ConcatMapStep(LineText, lines, j);
        ghost var got := LinesText(lines[..j]);
        text' := ConsumeLine(id, start, text', lines[j]);
        Associative(text, got, LineText(lines[j]));
        j := j + 1;
      }
      assert lines[..j] == lines;
    }

    /** The reading loop: every read of the response body is consumed in order. */
    method ConsumeStream(id: string, ghost start: seq<ChatMessage>, chunks: seq<seq<Utf8.Byte>>) returns (text: string)
      requires messages == start
      modifies `messages
      ensures text == StreamText(chunks)
      ensures messages == Shown(start, id, text)
    {
      text := "";
      var k := 0;
      while k < |chunks|
        invariant 0 <= k <= |chunks|
        invariant text == StreamText(chunks[..k])
        invariant messages == Shown(start, id, text)
      {
        ConcatMapStep(ReadText, chunks, k);
        text := ConsumeRead(id, start, text, chunks[k]);
        k := k + 1;
      }
      assert chunks[..k] == chunks;
    }

    /** `handleSendMessage()`. `sentAt`, `answeredAt` and `failedAt` are the values
        of `Date.now()` when the user message, the assistant message and the
        error message are made; `fetch` answers the posted history. Blank input
        or a send in progress changes nothing. */
    method HandleSendMessage(sentAt: nat, answeredAt: nat, failedAt: nat,
                             fetch: seq<ChatRoute.Message> -> Response)
      modifies this
      ensures Trim(old(input)) == "" || old(isLoading) ==>
        messages == old(messages) && input == old(input) && isLoading == old(isLoading)
      ensures Trim(old(input)) != "" && !old(isLoading) ==>
        && messages == AfterSend(old(messages), Trim(old(input)), sentAt, answeredAt, failedAt, fetch)
        && input == "" && !isLoading
    {
      var content := Trim(input);
      if content == "" || isLoading {
        return;
      }
      ghost var before := messages;
      var userMessage := ChatMessage(NatToString(sentAt), content, "user");
      var history := messages + [userMessage];
      messages := messages + [userMessage];
      input := "";
      isLoading := true;
      var response := fetch(History(history));
      if response.NotOk? {
        messages := messages + [ErrorMessage(failedAt)];
        isLoading := false;
        return;
      }
      var id := NatToString(answeredAt + 1);
      messages := messages + [ChatMessage(id, "", "assistant")];
      ghost var start := messages;
      var text := ConsumeStream(id, start, response.chunks);
      if response.interrupted {
        messages := messages + [ErrorMessage(failedAt)];
      }
      isLoading := false;
    }
  }

  /** The message list after sending `content`: the user message, then either one
      error message, or the assistant message showing the streamed text, followed
      by one error message when the stream fails. */
  function AfterSend(ms: seq<ChatMessage>, content: string, sentAt: nat, answeredAt: nat, failedAt: nat,
                     fetch: seq<ChatRoute.Message> -> Response): seq<ChatMessage>
  {
    var sent := ms + [ChatMessage(NatToString(sentAt), content, "user")];
    match fetch(History(sent))
    case NotOk => sent + [ErrorMessage(failedAt)]
    case Body(chunks, interrupted) =>
      var id := NatToString(answeredAt + 1);
      var shown := Shown(sent + [ChatMessage(id, "", "assistant")], id, StreamText(chunks));
      if interrupted then shown + [ErrorMessage(failedAt)] else shown
  }

  /** What the send posts and keeps: the request carries every earlier message and
      the user message, as role and content, in order; the earlier messages and
      the user message stay in place; on failure exactly one error message is
      appended; otherwise the assistant message carries the concatenated stream
      text, and an error message follows it when the stream fails. */
  lemma AfterSendShape(ms: seq<ChatMessage>, content: string, sentAt: nat, answeredAt: nat, failedAt: nat,
                       fetch: seq<ChatRoute.Message> -> Response)
    requires forall i :: 0 <= i < |ms| ==> ms[i].id != NatToString(answeredAt + 1)
    requires NatToString(sentAt) != NatToString(answeredAt + 1)
    ensures var sent := ms + [ChatMessage(NatToString(sentAt), content, "user")];
      var h := History(sent);
      var r := AfterSend(ms, content, sentAt, answeredAt, failedAt, fetch);
      && |h| == |ms| + 1 && h[|ms|] == ChatRoute.Message("user", content)
      && (forall i :: 0 <= i < |ms| ==> h[i] == ChatRoute.Message(ms[i].role, ms[i].content))
      && r[..|ms| + 1] == sent
      && (fetch(h).NotOk? ==> r == sent + [ChatMessage(NatToString(failedAt + 1), ErrorReply, "assistant")])
      && (fetch(h).Body? ==>
            && |r| == |ms| + 2 + (if fetch(h).interrupted then 1 else 0)
            && r[|ms| + 1] == ChatMessage(NatToString(answeredAt + 1), StreamText(fetch(h).chunks), "assistant")
            && (fetch(h).interrupted ==> r[|ms| + 2] == ErrorMessage(failedAt)))
  {
    var sent := ms + [ChatMessage(NatToString(sentAt), content, "user")];
    var h := History(sent);
    var r := AfterSend(ms, content, sentAt, answeredAt, failedAt, fetch);
    if fetch(h).Body? {
      var id := NatToString(answeredAt + 1);
      var start := sent + [ChatMessage(id, "", "assistant")];
      var shown := Shown(start, id, StreamText(fetch(h).chunks));
      assert |shown| == |start|;
      forall i | 0 <= i < |start| - 1 ensures shown[i] == start[i] {
        assert start[i] == sent[i];
        if i < |ms| { assert sent[i] == ms[i]; }
      }
      assert shown[..|ms| + 1] == sent;
      assert shown[|ms| + 1] == ChatMessage(id, StreamText(fetch(h).chunks), "assistant");
      if fetch(h).interrupted {
        assert r[..|ms| + 1] == shown[..|ms| + 1];
      }
    }
  }

  /** The lines the chat route sends for a run of contents, line feeds excluded. */
  function FrameLines(contents: seq<string>): (lines: seq<string>)
    ensures |lines| == |contents|
    ensures forall i :: 0 <= i < |contents| ==> lines[i] == JsonFrame.FrameLine(contents[i])
  {
    seq(|contents|, i requires 0 <= i < |contents| => JsonFrame.FrameLine(contents[i]))
  }

  function Concat(parts: seq<string>): string
    decreases |parts|
  {
    if parts == [] then "" else Concat(parts[..|parts| - 1]) + parts[|parts| - 1]
  }

  lemma {:induction false} FrameLinesText(contents: seq<string>)
    ensures LinesText(FrameLines(contents)) == Concat(contents)
    decreases |contents|
  {
    if contents != [] {
      var init := contents[..|contents| - 1];
      assert FrameLines(contents)[..|contents| - 1] == FrameLines(init);
      FrameLinesText(init);
      JsonFrame.DecodeFrameLine(contents[|contents| - 1]);
    }
  }

  /** Frames the chat route sends that arrive whole within one read decode to the
      contents they carry, in order: the browser's decoder is the inverse of the
      route's encoder. */
  lemma WholeFramesDecode(contents: seq<string>)
    ensures ReadText(Utf8.Encode(SseReframe.Terminated(FrameLines(contents)))) == Concat(contents)
  {
    var lines := FrameLines(contents);
    var text := SseReframe.Terminated(lines);
    Utf8.DecodeDroppingBomOfEncode(text);
    if lines != [] {
      TerminatedHead(lines);
    }
    forall i | 0 <= i < |lines| ensures '\n' !in lines[i] {
      JsonFrame.FrameLineHasNoNewline(contents[i]);
    }
    assert SseReframe.LineFree(lines);
    SseReframe.LinesOfReceived(lines, "");
    assert text + "" == text;
    assert (lines + [""])[..|lines|] == lines;
    FrameLinesText(contents);
  }

  /** Terminated lines start with the first line's first character. */
  lemma {:induction false} TerminatedHead(lines: seq<string>)
    requires lines != [] && lines[0] != []
    ensures SseReframe.Terminated(lines) != []
    ensures SseReframe.Terminated(lines)[0] == lines[0][0]
    decreases |lines|
  {
    var init := lines[..|lines| - 1];
    if init != [] {
      TerminatedHead(init);
      assert init[0] == lines[0];
    }
  }

  /** The text of one read, when the bytes are the UTF-8 encoding of `s`. */
  lemma ReadTextOfEncoded(s: string)
    ensures ReadText(Utf8.Encode(s)) == LinesText(Split(Utf8.DropBom(s), '\n'))
  {
    Utf8.DecodeDroppingBomOfEncode(s);
  }

  /** A read that holds a single line. */
  lemma OneLine(line: string)
    ensures LinesText([line]) == LineText(line)
  {
    ConcatMapSingle(LineText, line);
  }

  /** A read that holds one line and its line feed. */
  lemma OneTerminatedLine(line: string)
    requires '\n' !in line
    ensures LinesText(Split(line + "\n", '\n')) == LineText(line)
  {
    SplitCons(line, '\n', "");
    assert line + ['\n'] + "" == line + "\n";
    var parts := [line, ""];
    assert Split("", '\n') == [""];
    assert Split(line + "\n", '\n') == parts;
    assert parts[..1] == [line];
    OneLine(line);
    assert !StartsWith("", "0:");
  }

  /** Two reads in a row. */
  lemma TwoReads(a: seq<Utf8.Byte>, b: seq<Utf8.Byte>)
    ensures StreamText([a, b]) == ReadText(a) + ReadText(b)
  {
    ConcatMapPair(ReadText, a, b);
  }

  /** A frame read whole yields its content. */
  lemma WholeFrameGivesContent(c: string)
    ensures StreamText([Utf8.Encode(JsonFrame.Frame(c))]) == c
  {
    ConcatMapSingle(ReadText, Utf8.Encode(JsonFrame.Frame(c)));
    ReadTextOfEncoded(JsonFrame.Frame(c));
    assert JsonFrame.Frame(c)[0] == '0';
    JsonFrame.FrameLineHasNoNewline(c);
    OneTerminatedLine(JsonFrame.FrameLine(c));
    JsonFrame.DecodeFrameLine(c);
  }

  /** The part of a frame after `0:{"content":`, line feed excluded, holds no line
      feed and does not start with "0:". */
  lemma FrameTailShape(c: string)
    ensures '\n' !in JsonFrame.Quote(c) + "}"
    ensures !StartsWith(JsonFrame.Quote(c) + "}", "0:")
  {
    var tailLine := JsonFrame.Quote(c) + "}";
    assert tailLine[0] == '"';
    forall i | 0 <= i < |tailLine| ensures tailLine[i] != '\n' {
      if 0 < i < |tailLine| - 2 {
        assert tailLine[i] == JsonFrame.QuoteBody(c)[i - 1];
      }
    }
  }

  /** A frame read whole after a byte order mark still yields its content, as
      `TextDecoder.decode` drops the mark. */
  lemma LeadingBomIsDropped(c: string)
    ensures StreamText([Utf8.Encode([Utf8.ByteOrderMark] + JsonFrame.Frame(c))]) == c
  {
    var frame := JsonFrame.Frame(c);
    ConcatMapSingle(ReadText, Utf8.Encode([Utf8.ByteOrderMark] + frame));
    ReadTextOfEncoded([Utf8.ByteOrderMark] + frame);
    assert ([Utf8.ByteOrderMark] + frame)[1..] == frame;
    JsonFrame.FrameLineHasNoNewline(c);
    OneTerminatedLine(JsonFrame.FrameLine(c));
    JsonFrame.DecodeFrameLine(c);
  }

  /** The first part of a cut frame: a "0:" line whose JSON ends early. */
  lemma CutHeadGivesNothing()
    ensures ReadText(Utf8.Encode("0:" + JsonFrame.ContentPrefix)) == ""
  {
    var head := "0:" + JsonFrame.ContentPrefix;
    ReadTextOfEncoded(head);
    assert head[0] == '0';
    assert '\n' !in head;
    SplitNone(head, '\n');
    OneLine(head);
    assert JsonFrame.DecodeLine(head) == None;
  }

  /** The rest of a cut frame: a line that does not start with "0:". */
  lemma CutTailGivesNothing(c: string)
    ensures ReadText(Utf8.Encode(JsonFrame.Quote(c) + "}\n")) == ""
  {
    var tailLine := JsonFrame.Quote(c) + "}";
    assert tailLine + "\n" == JsonFrame.Quote(c) + "}\n";
    ReadTextOfEncoded(tailLine + "\n");
    assert (tailLine + "\n")[0] == '"';
    FrameTailShape(c);
    OneTerminatedLine(tailLine);
  }

  /** The frame cut after `0:{"content":` gives nothing. */
  lemma CutFrameGivesNothing(c: string)
    ensures StreamText([Utf8.Encode("0:" + JsonFrame.ContentPrefix), Utf8.Encode(JsonFrame.Quote(c) + "}\n")]) == ""
  {
    TwoReads(Utf8.Encode("0:" + JsonFrame.ContentPrefix), Utf8.Encode(JsonFrame.Quote(c) + "}\n"));
    CutHeadGivesNothing();
    CutTailGivesNothing(c);
  }

  /** A frame whose bytes are split across two reads is lost: read whole, the
      frame carrying `c` yields `c`; cut after `0:{"content":`, it yields
      nothing. */
  lemma SplitFrameIsLost(c: string)
    ensures var head := "0:" + JsonFrame.ContentPrefix;
      var tail := JsonFrame.Quote(c) + "}\n";
      && head + tail == JsonFrame.Frame(c)
      && StreamText([Utf8.Encode(head + tail)]) == c
      && StreamText([Utf8.Encode(head), Utf8.Encode(tail)]) == ""
  {
    assert "0:" + JsonFrame.ContentPrefix + (JsonFrame.Quote(c) + "}\n") == JsonFrame.Frame(c);
    WholeFrameGivesContent(c);
    CutFrameGivesNothing(c);
  }
}
