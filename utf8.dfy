/** UTF-8 as the browser uses it underneath `encodeURIComponent`,
    `decodeURIComponent` and `URLSearchParams`: the encoding of one Unicode
    scalar value, the recognition of one well-formed byte sequence (Table 3-7
    of the Unicode Standard), and the WHATWG Encoding Standard's decoder, which
    replaces each maximal ill-formed subpart by U+FFFD. */
module Utf8 {
  import opened Wrappers

  type Byte = b: int | 0 <= b < 256

  const Replacement: char := '\U{FFFD}'

  function EncodeChar(c: char): (bs: seq<Byte>)
    ensures 1 <= |bs| <= 4
    ensures |bs| == 1 <==> c as int < 0x80
    ensures |bs| == 1 ==> bs[0] == c as int
  {
    var v := c as int;
    if v < 0x80 then [v]
    else if v < 0x800 then [0xC0 + v / 64, 0x80 + v % 64]
    else if v < 0x10000 then [0xE0 + v / 4096, 0x80 + (v / 64) % 64, 0x80 + v % 64]
    else [0xF0 + v / 262144, 0x80 + (v / 4096) % 64, 0x80 + (v / 64) % 64, 0x80 + v % 64]
  }

  function Encode(s: string): (bs: seq<Byte>)
    decreases |s|
  {
    if s == [] then [] else EncodeChar(s[0]) + Encode(s[1..])
  }

  predicate IsContinuation(b: Byte) {
    0x80 <= b <= 0xBF
  }

  /** How many bytes a sequence led by `b0` has; 0 when `b0` cannot lead one. */
  function SequenceLength(b0: Byte): nat {
    if b0 < 0x80 then 1
    else if 0xC2 <= b0 <= 0xDF then 2
    else if 0xE0 <= b0 <= 0xEF then 3
    else if 0xF0 <= b0 <= 0xF4 then 4
    else 0
  }

  /** The range the second byte must lie in, which excludes overlong forms,
      surrogates and values above U+10FFFF. */
  function SecondLow(b0: Byte): Byte {
    if b0 == 0xE0 then 0xA0 else if b0 == 0xF0 then 0x90 else 0x80
  }

  function SecondHigh(b0: Byte): Byte {
    if b0 == 0xED then 0x9F else if b0 == 0xF4 then 0x8F else 0xBF
  }

  /** The well-formed sequence that `bs` starts with, as the character it encodes
      and its length in bytes; None when `bs` does not start with one. */
  function DecodeChar(bs: seq<Byte>): (r: Option<(char, nat)>)
    ensures r.Some? ==> 1 <= r.value.1 <= |bs| && r.value.1 == SequenceLength(bs[0])
  {
    if bs == [] then None
    else
      var b0 := bs[0];
      var n := SequenceLength(b0);
      if n == 0 || |bs| < n then None
      else if n == 1 then Some((b0 as char, 1))
      else if !(SecondLow(b0) <= bs[1] <= SecondHigh(b0)) then None
      else if n >= 3 && !IsContinuation(bs[2]) then None
      else if n == 4 && !IsContinuation(bs[3]) then None
      else if n == 2 then
        var cp: int := (b0 - 0xC0) as int * 64 + (bs[1] - 0x80);
        Some((cp as char, 2))
      else if n == 3 then
        var cp: int := (b0 - 0xE0) as int * 4096 + (bs[1] - 0x80) as int * 64 + (bs[2] - 0x80);
        assert b0 == 0xED ==> cp < 0xD800;
        assert b0 > 0xED ==> cp >= 0xE000;
        Some((cp as char, 3))
      else
        var cp: int := (b0 - 0xF0) as int * 262144 + (bs[1] - 0x80) as int * 4096
          + (bs[2] - 0x80) as int * 64 + (bs[3] - 0x80);
        Some((cp as char, 4))
  }

  /** How many bytes the decoder consumes when it emits U+FFFD: the lead byte
      and the continuation bytes that were acceptable before the sequence broke
      off (the maximal subpart). */
  function ErrorLength(bs: seq<Byte>): (k: nat)
    requires bs != []
    ensures 1 <= k <= |bs|
  {
    var n := SequenceLength(bs[0]);
    if n <= 2 || |bs| < 2 || !(SecondLow(bs[0]) <= bs[1] <= SecondHigh(bs[0])) then 1
    else if n == 3 || |bs| < 3 || !IsContinuation(bs[2]) then 2
    else 3
  }

  /** "UTF-8 decode without BOM": well-formed sequences become their characters
      and each ill-formed subpart becomes one U+FFFD. */
  function Decode(bs: seq<Byte>): string
    decreases |bs|
  {
    if bs == [] then []
    else match DecodeChar(bs)
      case Some(p) => [p.0] + Decode(bs[p.1..])
      case None => [Replacement] + Decode(bs[ErrorLength(bs)..])
  }

  /** The lead byte of an encoded character announces the sequence length and the
      other bytes are continuation bytes. */
  lemma EncodeCharShape(c: char)
    ensures var bs := EncodeChar(c);
      && SequenceLength(bs[0]) == |bs|
      && (|bs| >= 2 ==> SecondLow(bs[0]) <= bs[1] <= SecondHigh(bs[0]))
      && (forall j :: 1 <= j < |bs| ==> IsContinuation(bs[j]))
  {
    var v := c as int;
    if 0xD000 <= v < 0xD800 {
      assert (v / 64) % 64 < 32;
    }
    if 0x10000 <= v < 0x40000 {
      assert (v / 4096) % 64 >= 16;
    }
    if 0x100000 <= v {
      assert (v / 4096) % 64 < 16;
    }
  }

  /** Decoding the bytes of one character gives back that character, whatever follows. */
  lemma DecodeEncodeChar(c: char, rest: seq<Byte>)
    ensures DecodeChar(EncodeChar(c) + rest) == Some((c, |EncodeChar(c)|))
  {
    var v := c as int;
    if v < 0x80 {
      assert (EncodeChar(c) + rest)[0] == v;
    } else if v < 0x800 {
      DecodeTwo(c, rest);
    } else if v < 0x10000 {
      DecodeThree(c, rest);
    } else {
      DecodeFour(c, rest);
    }
  }

  lemma DecodeTwo(c: char, rest: seq<Byte>)
    requires 0x80 <= c as int < 0x800
    ensures DecodeChar(EncodeChar(c) + rest) == Some((c, 2))
  {
    var v := c as int;
    var bs := EncodeChar(c) + rest;
    EncodeCharShape(c);
    assert bs[0] == 0xC0 + v / 64 && bs[1] == 0x80 + v % 64;
    assert (v / 64) * 64 + v % 64 == v;
  }

  lemma DecodeThree(c: char, rest: seq<Byte>)
    requires 0x800 <= c as int < 0x10000
    ensures DecodeChar(EncodeChar(c) + rest) == Some((c, 3))
  {
    var v := c as int;
    var bs := EncodeChar(c) + rest;
    EncodeCharShape(c);
    assert bs[0] == 0xE0 + v / 4096 && bs[1] == 0x80 + (v / 64) % 64 && bs[2] == 0x80 + v % 64;
    assert (v / 4096) * 4096 + ((v / 64) % 64) * 64 + v % 64 == v;
  }

  lemma DecodeFour(c: char, rest: seq<Byte>)
    requires 0x10000 <= c as int
    ensures DecodeChar(EncodeChar(c) + rest) == Some((c, 4))
  {
    var bs := EncodeChar(c) + rest;
    EncodeFour(c);
    assert bs[0] == EncodeChar(c)[0] && bs[1] == EncodeChar(c)[1];
    assert bs[2] == EncodeChar(c)[2] && bs[3] == EncodeChar(c)[3];
    DecodeFourBytes(bs);
  }

  /** The four bytes of a supplementary character form a well-formed sequence
      whose bits give back the character. */
  lemma EncodeFour(c: char)
    requires 0x10000 <= c as int
    ensures var bs := EncodeChar(c);
      && |bs| == 4 && 0xF0 <= bs[0] <= 0xF4 && SecondLow(bs[0]) <= bs[1] <= SecondHigh(bs[0])
      && IsContinuation(bs[2]) && IsContinuation(bs[3])
      && (bs[0] - 0xF0) as int * 262144 + (bs[1] - 0x80) as int * 4096 + (bs[2] - 0x80) as int * 64 + (bs[3] - 0x80) == c as int
  {
    var v := c as int;
    var q1, d := v / 64, v % 64;
    var q2, c2 := q1 / 64, q1 % 64;
    var a, b := q2 / 64, q2 % 64;
    assert v == q1 * 64 + d && q1 == q2 * 64 + c2 && q2 == a * 64 + b;
    assert v / 4096 == q2 && v / 262144 == a;
    assert EncodeChar(c) == [0xF0 + a, 0x80 + b, 0x80 + c2, 0x80 + d];
    if v < 0x40000 { assert b >= 16; }
    if v >= 0x100000 { assert b < 16; }
  }

  lemma DecodeFourBytes(bs: seq<Byte>)
    requires |bs| >= 4 && 0xF0 <= bs[0] <= 0xF4 && SecondLow(bs[0]) <= bs[1] <= SecondHigh(bs[0])
    requires IsContinuation(bs[2]) && IsContinuation(bs[3])
    ensures DecodeChar(bs).Some? && DecodeChar(bs).value.1 == 4
    ensures DecodeChar(bs).value.0 as int ==
      (bs[0] - 0xF0) as int * 262144 + (bs[1] - 0x80) as int * 4096 + (bs[2] - 0x80) as int * 64 + (bs[3] - 0x80)
  {
  }

  lemma {:induction false} DecodeEncode(s: string)
    ensures Decode(Encode(s)) == s
    decreases |s|
  {
    if s != [] {
      var head := EncodeChar(s[0]);
      DecodeEncodeChar(s[0], Encode(s[1..]));
      assert (head + Encode(s[1..]))[|head|..] == Encode(s[1..]);
      DecodeEncode(s[1..]);
      assert [s[0]] + s[1..] == s;
    }
  }

  lemma {:induction false} EncodeAppend(a: string, b: string)
    ensures Encode(a + b) == Encode(a) + Encode(b)
    decreases |a|
  {
    if a == [] {
      assert a + b == b;
    } else {
      assert (a + b)[0] == a[0] && (a + b)[1..] == a[1..] + b;
      EncodeAppend(a[1..], b);
    }
  }

  const ByteOrderMark: char := '\U{FEFF}'

  /** The text without its first character when that is a byte order mark. */
  function DropBom(s: string): (r: string)
    ensures r == s <==> s == [] || s[0] != ByteOrderMark
    ensures r != s ==> [ByteOrderMark] + r == s
  {
    if s != [] && s[0] == ByteOrderMark then s[1..] else s
  }

  /** `TextDecoder.decode` with the default options and no `stream`: every call
      starts a fresh decoder with no byte order mark seen, decodes the input
      without BOM and drops a leading U+FEFF. */
  function DecodeDroppingBom(bs: seq<Byte>): string {
    DropBom(Decode(bs))
  }

  /** Decoding an encoding gives the text back without a leading byte order mark. */
  lemma DecodeDroppingBomOfEncode(s: string)
    ensures DecodeDroppingBom(Encode(s)) == DropBom(s)
  {
    DecodeEncode(s);
  }

  /** One leading byte order mark is lost, and only that one. */
  lemma BomDropped(s: string)
    ensures DecodeDroppingBom(Encode([ByteOrderMark] + s)) == s
  {
    DecodeDroppingBomOfEncode([ByteOrderMark] + s);
    assert ([ByteOrderMark] + s)[1..] == s;
  }

  /** `n` replacement characters. */
  function Replacements(n: nat): (s: string)
    ensures |s| == n && forall i :: 0 <= i < n ==> s[i] == Replacement
  {
    seq(n, _ => Replacement)
  }

  /** The first `k` bytes of a character's multi-byte encoding are one maximal
      ill-formed subpart, so they decode to a single U+FFFD. */
  lemma TruncatedCharIsOneError(c: char, k: nat)
    requires 0 < k < |EncodeChar(c)|
    ensures Decode(EncodeChar(c)[..k]) == [Replacement]
  {
    var bs := EncodeChar(c);
    var p := bs[..k];
    EncodeCharShape(c);
    assert p[0] == bs[0];
    assert DecodeChar(p).None?;
    assert k >= 2 ==> p[1] == bs[1];
    assert k >= 3 ==> p[2] == bs[2];
    assert ErrorLength(p) == k;
    assert p[k..] == [];
  }

  /** Continuation bytes with no lead byte before them decode to one U+FFFD each. */
  lemma {:induction false} ContinuationsAreErrors(bs: seq<Byte>)
    requires forall j :: 0 <= j < |bs| ==> IsContinuation(bs[j])
    ensures Decode(bs) == Replacements(|bs|)
    decreases |bs|
  {
    if bs != [] {
      assert DecodeChar(bs).None?;
      assert ErrorLength(bs) == 1;
      ContinuationsAreErrors(bs[1..]);
      assert Replacements(|bs|) == [Replacement] + Replacements(|bs| - 1);
    }
  }

  /** A character's encoding cut after `k` bytes and decoded in two parts gives
      one U+FFFD for the head and one for each byte of the tail. */
  lemma SplitCharacter(c: char, k: nat)
    requires 0 < k < |EncodeChar(c)|
    ensures var bs := EncodeChar(c);
      Decode(bs[..k]) + Decode(bs[k..]) == Replacements(1 + |bs| - k)
  {
    var bs := EncodeChar(c);
    EncodeCharShape(c);
    TruncatedCharIsOneError(c, k);
    forall j | 0 <= j < |bs[k..]| ensures IsContinuation(bs[k..][j]) {
      assert bs[k..][j] == bs[k + j];
    }
    ContinuationsAreErrors(bs[k..]);
    assert Replacements(1 + |bs| - k) == [Replacement] + Replacements(|bs| - k);
  }

  /** One character's encoding decodes to that character. */
  lemma DecodeOneChar(c: char)
    ensures Decode(EncodeChar(c)) == [c]
  {
    var bs := EncodeChar(c);
    DecodeEncodeChar(c, []);
    assert bs + [] == bs;
    assert bs[|bs|..] == [];
  }

  /** A string of ASCII characters is its own UTF-8 encoding. */
  predicate IsAscii(s: string) {
    forall i :: 0 <= i < |s| ==> s[i] as int < 0x80
  }

  function AsciiBytes(s: string): (bs: seq<Byte>)
    requires IsAscii(s)
    ensures |bs| == |s| && forall i :: 0 <= i < |s| ==> bs[i] == s[i] as int
  {
    seq(|s|, i requires 0 <= i < |s| => s[i] as int)
  }

  lemma {:induction false} EncodeAscii(s: string)
    requires IsAscii(s)
    ensures Encode(s) == AsciiBytes(s)
    decreases |s|
  {
    if s != [] {
      EncodeAscii(s[1..]);
      assert AsciiBytes(s) == [s[0] as int] + AsciiBytes(s[1..]);
    }
  }
}
