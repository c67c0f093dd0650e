/** `encodeURIComponent` and `decodeURIComponent` (ECMA-262, the global
    functions Encode and Decode with an empty preserve set): percent-encoding of
    the UTF-8 bytes of every character outside the URI unreserved marks, as
    section 2.1 of RFC 3986 describes it, with upper-case hexadecimal digits. */
module UriCodec {
  import opened Wrappers
  import Utf8

  /** The characters `encodeURIComponent` leaves as they are. */
  predicate IsUriUnreserved(c: char) {
    || ('A' <= c <= 'Z') || ('a' <= c <= 'z') || ('0' <= c <= '9')
    || c == '-' || c == '_' || c == '.' || c == '!' || c == '~' || c == '*'
    || c == '\'' || c == '(' || c == ')'
  }

  function HexDigit(d: nat): (c: char)
    requires d < 16
    ensures c as int < 0x80
  {
    if d < 10 then ('0' as int + d) as char else ('A' as int + d - 10) as char
  }

  predicate IsHexDigit(c: char) {
    ('0' <= c <= '9') || ('A' <= c <= 'F') || ('a' <= c <= 'f')
  }

  function HexValue(c: char): (d: nat)
    requires IsHexDigit(c)
    ensures d < 16
  {
    if '0' <= c <= '9' then c as int - '0' as int
    else if 'A' <= c <= 'F' then c as int - 'A' as int + 10
    else c as int - 'a' as int + 10
  }

  /** "%XY" for one byte. */
  function Escape(b: Utf8.Byte): (s: string)
    ensures |s| == 3 && s[0] == '%' && IsHexDigit(s[1]) && IsHexDigit(s[2])
    ensures HexValue(s[1]) * 16 + HexValue(s[2]) == b
  {
    ['%', HexDigit(b / 16), HexDigit(b % 16)]
  }

  function EscapeAll(bs: seq<Utf8.Byte>): (s: string)
    ensures |s| == 3 * |bs|
    decreases |bs|
  {
    if bs == [] then [] else Escape(bs[0]) + EscapeAll(bs[1..])
  }

  function EncodeChar(c: char): string {
    if IsUriUnreserved(c) then [c] else EscapeAll(Utf8.EncodeChar(c))
  }

  /** `encodeURIComponent(s)`. Strings here hold no lone surrogates, so it never throws. */
  function EncodeURIComponent(s: string): string
    decreases |s|
  {
    if s == [] then [] else EncodeChar(s[0]) + EncodeURIComponent(s[1..])
  }

  /** The number of leading one bits of a byte, which announces the length of
      a UTF-8 sequence. */
  function LeadingOnes(b: Utf8.Byte): nat {
    if b < 0x80 then 0 else if b < 0xC0 then 1 else if b < 0xE0 then 2
    else if b < 0xF0 then 3 else if b < 0xF8 then 4 else 5
  }

  function Cons(c: char, r: Option<string>): Option<string> {
    if r.Some? then Some([c] + r.value) else None
  }

  /** The byte written as "%XY" at the start of `s`, if there is one. */
  function EscapedByte(s: string): (r: Option<Utf8.Byte>) {
    if |s| >= 3 && s[0] == '%' && IsHexDigit(s[1]) && IsHexDigit(s[2])
    then Some(HexValue(s[1]) * 16 + HexValue(s[2]))
    else None
  }

  /** `count` escaped bytes at the start of `s`; None (a URIError) when one is missing. */
  function EscapedBytes(s: string, count: nat): (r: Option<seq<Utf8.Byte>>)
    ensures r.Some? ==> |r.value| == count
    decreases count
  {
    if count == 0 then Some([])
    else match EscapedByte(s)
      case None => None
      case Some(b) =>
        var rest := EscapedBytes(s[3..], count - 1);
        if rest.Some? then Some([b] + rest.value) else None
  }

  /** `decodeURIComponent(s)`; None is the URIError it throws on a malformed
      escape or an invalid UTF-8 sequence. */
  function DecodeURIComponent(s: string): Option<string>
    decreases |s|
  {
    if s == [] then Some([])
    else if s[0] != '%' then Cons(s[0], DecodeURIComponent(s[1..]))
    else match EscapedByte(s)
      case None => None
      case Some(b) =>
        if b < 0x80 then Cons(b as char, DecodeURIComponent(s[3..]))
        else
          var n := LeadingOnes(b);
          if n == 1 || n > 4 || |s| < 3 * n then None
          else match EscapedBytes(s[3..], n - 1)
            case None => None
            case Some(tail) =>
              match Utf8.DecodeChar([b] + tail)
              case None => None
              case Some(p) => Cons(p.0, DecodeURIComponent(s[3 * n..]))
  }

  lemma HexRoundTrip(b: Utf8.Byte, rest: string)
    ensures EscapedByte(Escape(b) + rest) == Some(b)
  {
  }

  lemma {:induction false} EscapedBytesOfEscapeAll(bs: seq<Utf8.Byte>, rest: string)
    ensures EscapedBytes(EscapeAll(bs) + rest, |bs|) == Some(bs)
    decreases |bs|
  {
    if bs != [] {
      var s := EscapeAll(bs) + rest;
      assert s == Escape(bs[0]) + (EscapeAll(bs[1..]) + rest);
      HexRoundTrip(bs[0], EscapeAll(bs[1..]) + rest);
      assert s[3..] == EscapeAll(bs[1..]) + rest;
      EscapedBytesOfEscapeAll(bs[1..], rest);
      assert [bs[0]] + bs[1..] == bs;
    }
  }

  /** Decoding the encoding of one character gives that character back, whatever follows. */
  lemma DecodeEncodeChar(c: char, rest: string)
    ensures DecodeURIComponent(EncodeChar(c) + rest) == Cons(c, DecodeURIComponent(rest))
  {
    var s := EncodeChar(c) + rest;
    if IsUriUnreserved(c) {
      assert s[0] == c && s[1..] == rest;
    } else {
      var bs := Utf8.EncodeChar(c);
      var n := |bs|;
      Utf8.EncodeCharShape(c);
      assert s == Escape(bs[0]) + (EscapeAll(bs[1..]) + rest);
      HexRoundTrip(bs[0], EscapeAll(bs[1..]) + rest);
      assert s[3..] == EscapeAll(bs[1..]) + rest;
      if n == 1 {
        assert (bs[0] as char) == c;
      } else {
        assert LeadingOnes(bs[0]) == n;
        EscapedBytesOfEscapeAll(bs[1..], rest);
        assert [bs[0]] + bs[1..] == bs;
        Utf8.DecodeEncodeChar(c, []);
        assert bs + [] == bs;
        assert s[3 * n..] == rest;
      }
    }
  }

  /** decodeURIComponent(encodeURIComponent(s)) == s. */
  lemma {:induction false} DecodeEncode(s: string)
    ensures DecodeURIComponent(EncodeURIComponent(s)) == Some(s)
    decreases |s|
  {
    if s != [] {
      DecodeEncodeChar(s[0], EncodeURIComponent(s[1..]));
      DecodeEncode(s[1..]);
      assert [s[0]] + s[1..] == s;
    }
  }

  /** Only the empty string encodes to the empty string. */
  lemma EncodeEmpty(s: string)
    ensures EncodeURIComponent(s) == "" <==> s == ""
  {
    if s != [] {
      assert |EncodeChar(s[0])| > 0;
    }
  }

  lemma {:induction false} EscapeAllAscii(bs: seq<Utf8.Byte>)
    ensures Utf8.IsAscii(EscapeAll(bs))
    decreases |bs|
  {
    if bs != [] {
      EscapeAllAscii(bs[1..]);
    }
  }

  /** The encoding is plain ASCII. */
  lemma {:induction false} EncodeIsAscii(s: string)
    ensures Utf8.IsAscii(EncodeURIComponent(s))
    decreases |s|
  {
    if s != [] {
      EscapeAllAscii(Utf8.EncodeChar(s[0]));
      EncodeIsAscii(s[1..]);
    }
  }
}
