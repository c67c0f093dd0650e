/** The frames the chat route streams to the browser, `0:{"content":"..."}`
    followed by a newline, and the browser's reading of one such line.
    `JSON.stringify` of a string is QuoteJSONString of ECMA-262; `JSON.parse` is
    modelled for the one object shape the route writes. */
module JsonFrame {
  import opened Wrappers
  import opened JsText

  function LowerHexDigit(d: nat): (c: char)
    requires d < 16
  {
    if d < 10 then ('0' as int + d) as char else ('a' as int + d - 10) as char
  }

  /** How JSON.stringify writes one character inside the quotes: the two-character
      escapes for '"', '\\', backspace, form feed, newline, carriage return and tab,
      `\u00XY` (lower-case digits) for the other control characters, and anything
      else as itself. */
  function QuoteChar(c: char): (s: string)
    ensures 1 <= |s|
    ensures forall i :: 0 <= i < |s| ==> s[i] as int >= 0x20
  {
    if c == '"' then "\\\""
    else if c == '\\' then "\\\\"
    else if c == '\U{0008}' then "\\b"
    else if c == '\U{000C}' then "\\f"
    else if c == '\n' then "\\n"
    else if c == '\r' then "\\r"
    else if c == '\t' then "\\t"
    else if c as int < 0x20 then "\\u00" + [LowerHexDigit(c as int / 16), LowerHexDigit(c as int % 16)]
    else [c]
  }

  function QuoteBody(s: string): (r: string)
    ensures forall i :: 0 <= i < |r| ==> r[i] as int >= 0x20
    decreases |s|
  {
    if s == [] then [] else QuoteChar(s[0]) + QuoteBody(s[1..])
  }

  /** `JSON.stringify(s)` for a string. */
  function Quote(s: string): string {
    "\"" + QuoteBody(s) + "\""
  }

  const ContentPrefix: string := "{\"content\":"

  /** `JSON.stringify({ content })`. */
  function ContentObject(content: string): string {
    ContentPrefix + Quote(content) + "}"
  }

  /** The line the chat route sends for one piece of content, newline excluded. */
  function FrameLine(content: string): string {
    "0:" + ContentObject(content)
  }

  /** The chunk the chat route enqueues: the frame line and a newline. */
  function Frame(content: string): string {
    FrameLine(content) + "\n"
  }

  predicate IsJsonHexDigit(c: char) {
    ('0' <= c <= '9') || ('a' <= c <= 'f') || ('A' <= c <= 'F')
  }

  function JsonHexValue(c: char): (d: nat)
    requires IsJsonHexDigit(c)
    ensures d < 16
  {
    if c <= '9' then c as int - '0' as int
    else if c <= 'F' then c as int - 'A' as int + 10
    else c as int - 'a' as int + 10
  }

  /** The character an escape denotes, given the text after the backslash, with
      the number of characters the escape takes after the backslash. */
  function Unescape(s: string): (r: Option<(char, nat)>)
    ensures r.Some? ==> 1 <= r.value.1 <= |s|
  {
    if s == [] then None
    else if s[0] == '"' then Some(('"', 1))
    else if s[0] == '\\' then Some(('\\', 1))
    else if s[0] == '/' then Some(('/', 1))
    else if s[0] == 'b' then Some(('\U{0008}', 1))
    else if s[0] == 'f' then Some(('\U{000C}', 1))
    else if s[0] == 'n' then Some(('\n', 1))
    else if s[0] == 'r' then Some(('\r', 1))
    else if s[0] == 't' then Some(('\t', 1))
    else if s[0] == 'u' && |s| >= 5 && IsJsonHexDigit(s[1]) && IsJsonHexDigit(s[2])
                        && IsJsonHexDigit(s[3]) && IsJsonHexDigit(s[4]) then
      var v := ((JsonHexValue(s[1]) * 16 + JsonHexValue(s[2])) * 16 + JsonHexValue(s[3])) * 16
               + JsonHexValue(s[4]);
      if 0xD800 <= v < 0xE000 then None else Some((v as char, 5))
    else None
  }

  function Extend(c: char, k: nat, r: Option<(string, nat)>): Option<(string, nat)> {
    if r.Some? then Some(([c] + r.value.0, k + r.value.1)) else None
  }

  /** The body of a JSON string literal after its opening quote: the characters it
      denotes and the number of characters up to and including the closing quote. */
  function ParseStringBody(s: string): (r: Option<(string, nat)>)
    ensures r.Some? ==> 1 <= r.value.1 <= |s|
    decreases |s|
  {
    if s == [] then None
    else if s[0] == '"' then Some(([], 1))
    else if s[0] == '\\' then
      match Unescape(s[1..])
      case None => None
      case Some(e) => Extend(e.0, 1 + e.1, ParseStringBody(s[1 + e.1..]))
    else if s[0] as int < 0x20 then None
    else Extend(s[0], 1, ParseStringBody(s[1..]))
  }

  /** `JSON.parse(text).content` where text is exactly an object with one member
      `content` holding a string; None for anything else. */
  function ParseContentObject(text: string): Option<string> {
    var p := |ContentPrefix|;
    if |text| < p + 1 || text[..p] != ContentPrefix || text[p] != '"' then None
    else match ParseStringBody(text[p + 1..])
      case None => None
      case Some(t) => if text[p + 1 + t.1..] == "}" then Some(t.0) else None
  }

  /** How the browser reads one line: a line starting with "0:" holds a JSON object
      whose `content` is taken; any other line, or one that does not parse, gives None. */
  function DecodeLine(line: string): Option<string> {
    if StartsWith(line, "0:") then ParseContentObject(line[2..]) else None
  }

  /** The escape JSON.stringify writes for a character reads back as that character. */
  lemma UnescapeQuoted(c: char, rest: string)
    requires |QuoteChar(c)| > 1
    ensures QuoteChar(c)[0] == '\\'
    ensures Unescape(QuoteChar(c)[1..] + rest) == Some((c, |QuoteChar(c)| - 1))
  {
    var q := QuoteChar(c);
    var t := q[1..] + rest;
    if |q| == 6 {
      var v := c as int;
      assert t[0] == 'u' && t[1] == '0' && t[2] == '0' && t[3] == q[4] && t[4] == q[5];
      assert JsonHexValue(t[3]) == v / 16 && JsonHexValue(t[4]) == v % 16;
    }
  }

  lemma QuoteCharParses(c: char, rest: string)
    ensures ParseStringBody(QuoteChar(c) + rest) == Extend(c, |QuoteChar(c)|, ParseStringBody(rest))
  {
    var q := QuoteChar(c);
    var s := q + rest;
    if |q| == 1 {
      assert s[0] == c && s[1..] == rest;
    } else {
      UnescapeQuoted(c, rest);
      assert s[0] == '\\' && s[1..] == q[1..] + rest;
      assert s[1 + (|q| - 1)..] == rest;
    }
  }

  lemma {:induction false} QuoteBodyParses(s: string, rest: string)
    ensures ParseStringBody(QuoteBody(s) + "\"" + rest) == Some((s, |QuoteBody(s)| + 1))
    decreases |s|
  {
    var text := QuoteBody(s) + "\"" + rest;
    if s == [] {
      assert text[0] == '"';
    } else {
      var b := QuoteBody(s[1..]);
      var tail := b + "\"" + rest;
      QuoteBodyStep(s, rest);
      QuoteBodyParses(s[1..], rest);
      QuoteCharThenParsed(s[0], tail, s[1..], |b| + 1);
      assert [s[0]] + s[1..] == s;
    }
  }

  /** When the text after one escaped character parses, the whole parses, one
      character and one escape longer. */
  lemma QuoteCharThenParsed(c: char, tail: string, t: string, n: nat)
    requires ParseStringBody(tail) == Some((t, n))
    ensures ParseStringBody(QuoteChar(c) + tail) == Some(([c] + t, |QuoteChar(c)| + n))
  {
    QuoteCharParses(c, tail);
  }

  /** The quoted body of a non-empty string, followed by `more`, parses as the
      first character's escape followed by the rest. */
  lemma QuoteBodyStep(s: string, more: string)
    requires s != []
    ensures ParseStringBody(QuoteBody(s) + "\"" + more)
         == ParseStringBody(QuoteChar(s[0]) + (QuoteBody(s[1..]) + "\"" + more))
    ensures |QuoteBody(s)| == |QuoteChar(s[0])| + |QuoteBody(s[1..])|
  {
    var q := QuoteChar(s[0]);
    var b := QuoteBody(s[1..]);
    assert QuoteBody(s) == q + b;
    assert (q + b) + "\"" + more == q + (b + "\"" + more);
  }

  /** Parsing what JSON.stringify wrote for `{ content }` gives back the content. */
  lemma ParseContentObjectOf(content: string)
    ensures ParseContentObject(ContentObject(content)) == Some(content)
  {
    var text := ContentObject(content);
    var p := |ContentPrefix|;
    assert text[..p] == ContentPrefix;
    assert text[p] == '"';
    assert text[p + 1..] == QuoteBody(content) + "\"" + "}";
    QuoteBodyParses(content, "}");
    assert text[p + 1 + |QuoteBody(content)| + 1..] == "}";
  }

  /** A frame line read by the browser decodes to the content the route put in it. */
  lemma DecodeFrameLine(content: string)
    ensures DecodeLine(FrameLine(content)) == Some(content)
  {
    var line := FrameLine(content);
    assert line[..2] == "0:";
    assert line[2..] == ContentObject(content);
    ParseContentObjectOf(content);
  }

  /** A frame line holds no line break (JSON.stringify escapes every control
      character), so the frame's only newline is its last character. */
  lemma FrameLineHasNoNewline(content: string)
    ensures '\n' !in FrameLine(content)
  {
    var line := FrameLine(content);
    var body := QuoteBody(content);
    assert line == "0:" + ContentPrefix + "\"" + body + "\"" + "}";
    forall i | 0 <= i < |line| ensures line[i] != '\n' {
      if 2 + |ContentPrefix| + 1 <= i < 2 + |ContentPrefix| + 1 + |body| {
        assert line[i] == body[i - (2 + |ContentPrefix| + 1)];
      }
    }
  }
}
