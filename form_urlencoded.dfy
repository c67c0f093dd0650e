/** `URLSearchParams` as the demo and embed pages use it: an ordered list of
    name-value pairs with `set` and `get`, `toString()` (the
    application/x-www-form-urlencoded serializer of section 5.2 of the WHATWG URL
    Standard) and the constructor from a query string (the parser of section 5.1). */
module FormUrlencoded {
  import opened Wrappers
  import opened JsText
  import Utf8
  import UriCodec

  datatype Param = Param(name: string, value: string)

  /** The bytes the serializer writes as themselves: ASCII alphanumerics and `*-._`. */
  predicate IsFormSafe(b: Utf8.Byte) {
    || (0x30 <= b <= 0x39) || (0x41 <= b <= 0x5A) || (0x61 <= b <= 0x7A)
    || b == 0x2A || b == 0x2D || b == 0x2E || b == 0x5F
  }

  /** One byte as the serializer writes it: a space is '+', a safe byte is itself,
      any other byte is "%XY" with upper-case hexadecimal digits. */
  function SerializeByte(b: Utf8.Byte): (s: string)
    ensures 1 <= |s| <= 3 && Utf8.IsAscii(s)
  {
    if b == 0x20 then "+"
    else if IsFormSafe(b) then [b as char]
    else UriCodec.Escape(b)
  }

  function SerializeBytes(bs: seq<Utf8.Byte>): (s: string)
    ensures Utf8.IsAscii(s)
    decreases |bs|
  {
    if bs == [] then [] else SerializeByte(bs[0]) + SerializeBytes(bs[1..])
  }

  /** The application/x-www-form-urlencoded serializer applied to one name or value. */
  function SerializeComponent(s: string): string {
    SerializeBytes(Utf8.Encode(s))
  }

  function SerializePair(p: Param): string {
    SerializeComponent(p.name) + "=" + SerializeComponent(p.value)
  }

  function SerializePairs(ps: seq<Param>): (r: seq<string>)
    ensures |r| == |ps|
    decreases |ps|
  {
    if ps == [] then [] else [SerializePair(ps[0])] + SerializePairs(ps[1..])
  }

  /** `params.toString()`. */
  function Serialize(ps: seq<Param>): string {
    Join(SerializePairs(ps), "&")
  }

  /** Replaces each '+' byte by a space byte. */
  function ReplacePlus(bs: seq<Utf8.Byte>): (r: seq<Utf8.Byte>)
    ensures |r| == |bs|
    ensures forall i :: 0 <= i < |bs| ==> r[i] == (if bs[i] == 0x2B then 0x20 else bs[i])
    decreases |bs|
  {
    if bs == [] then [] else [if bs[0] == 0x2B then 0x20 else bs[0]] + ReplacePlus(bs[1..])
  }

  predicate IsHexByte(b: Utf8.Byte) {
    (0x30 <= b <= 0x39) || (0x41 <= b <= 0x46) || (0x61 <= b <= 0x66)
  }

  function HexByteValue(b: Utf8.Byte): (d: nat)
    requires IsHexByte(b)
    ensures d < 16
  {
    if b <= 0x39 then b - 0x30 else if b <= 0x46 then b - 0x41 + 10 else b - 0x61 + 10
  }

  /** Percent-decoding of a byte sequence: "%XY" with two hexadecimal digits becomes
      that byte, and any other byte, a stray '%' included, is kept. */
  function PercentDecode(bs: seq<Utf8.Byte>): seq<Utf8.Byte>
    decreases |bs|
  {
    if bs == [] then []
    else if bs[0] == 0x25 && |bs| >= 3 && IsHexByte(bs[1]) && IsHexByte(bs[2])
    then [HexByteValue(bs[1]) * 16 + HexByteValue(bs[2])] + PercentDecode(bs[3..])
    else [bs[0]] + PercentDecode(bs[1..])
  }

  /** A name or value as the parser reads it: '+' is a space, then percent-decoding,
      then UTF-8 decoding without BOM (ill-formed bytes become U+FFFD). */
  function ParseComponent(bs: seq<Utf8.Byte>): string {
    Utf8.Decode(PercentDecode(ReplacePlus(bs)))
  }

  /** One '&'-separated piece: the name runs up to the first '=', the value is the
      rest; without '=' the value is empty. */
  function ParsePiece(piece: seq<Utf8.Byte>): Param {
    var parts := Split(piece, 0x3D);
    Param(ParseComponent(parts[0]), ParseComponent(Join(parts[1..], [0x3D])))
  }

  /** Empty pieces are skipped. */
  function ParsePieces(pieces: seq<seq<Utf8.Byte>>): seq<Param>
    decreases |pieces|
  {
    if pieces == [] then []
    else if pieces[0] == [] then ParsePieces(pieces[1..])
    else [ParsePiece(pieces[0])] + ParsePieces(pieces[1..])
  }

  /** The application/x-www-form-urlencoded parser on the UTF-8 bytes of `query`. */
  function Parse(query: string): seq<Param> {
    ParsePieces(Split(Utf8.Encode(query), 0x26))
  }

  /** `new URLSearchParams(search)`: one leading '?' is dropped first. */
  function FromSearch(search: string): seq<Param> {
    if search != [] && search[0] == '?' then Parse(search[1..]) else Parse(search)
  }

  /** `params.get(name)`: the value of the first pair with that name, or null. */
  function Get(ps: seq<Param>, name: string): (r: Option<string>)
    ensures r.None? <==> forall i :: 0 <= i < |ps| ==> ps[i].name != name
    ensures r.Some? ==> exists i :: 0 <= i < |ps| && ps[i] == Param(name, r.value)
    decreases |ps|
  {
    if ps == [] then None
    else if ps[0].name == name then Some(ps[0].value)
    else Get(ps[1..], name)
  }

  function RemoveAll(ps: seq<Param>, name: string): (r: seq<Param>)
    ensures forall i :: 0 <= i < |r| ==> r[i].name != name
    decreases |ps|
  {
    if ps == [] then []
    else if ps[0].name == name then RemoveAll(ps[1..], name)
    else [ps[0]] + RemoveAll(ps[1..], name)
  }

  function SetFirst(ps: seq<Param>, name: string, value: string): seq<Param>
    decreases |ps|
  {
    if ps == [] then []
    else if ps[0].name == name then [Param(name, value)] + RemoveAll(ps[1..], name)
    else [ps[0]] + SetFirst(ps[1..], name, value)
  }

  /** `params.set(name, value)`: the first pair with that name takes the value and
      the others with that name go; without one, the pair is appended. */
  function Set(ps: seq<Param>, name: string, value: string): seq<Param> {
    if Get(ps, name).Some? then SetFirst(ps, name, value) else ps + [Param(name, value)]
  }

  lemma {:induction false} GetRemoveAll(ps: seq<Param>, name: string, other: string)
    requires other != name
    ensures Get(RemoveAll(ps, name), other) == Get(ps, other)
    decreases |ps|
  {
    if ps != [] {
      GetRemoveAll(ps[1..], name, other);
    }
  }

  lemma {:induction false} GetSetFirst(ps: seq<Param>, name: string, value: string, other: string)
    requires Get(ps, name).Some?
    ensures Get(SetFirst(ps, name, value), name) == Some(value)
    ensures other != name ==> Get(SetFirst(ps, name, value), other) == Get(ps, other)
    decreases |ps|
  {
    if ps[0].name == name {
      if other != name {
        GetRemoveAll(ps[1..], name, other);
      }
    } else {
      GetSetFirst(ps[1..], name, value, other);
    }
  }

  lemma {:induction false} GetAppend(ps: seq<Param>, p: Param, other: string)
    ensures Get(ps + [p], other) == (if Get(ps, other).Some? then Get(ps, other)
                                     else if p.name == other then Some(p.value) else None)
    decreases |ps|
  {
    if ps != [] {
      assert (ps + [p])[1..] == ps[1..] + [p];
      GetAppend(ps[1..], p, other);
    }
  }

  /** After `set(name, value)`, `get(name)` is `value` and every other name reads as before. */
  lemma GetSet(ps: seq<Param>, name: string, value: string, other: string)
    ensures Get(Set(ps, name, value), name) == Some(value)
    ensures other != name ==> Get(Set(ps, name, value), other) == Get(ps, other)
  {
    if Get(ps, name).Some? {
      GetSetFirst(ps, name, value, other);
    } else {
      GetAppend(ps, Param(name, value), name);
      GetAppend(ps, Param(name, value), other);
    }
  }

  /** Setting a name not yet present appends one pair at the end. */
  lemma SetFresh(ps: seq<Param>, name: string, value: string)
    requires forall i :: 0 <= i < |ps| ==> ps[i].name != name
    ensures Set(ps, name, value) == ps + [Param(name, value)]
  {
  }

  lemma {:induction false} ReplacePlusAppend(a: seq<Utf8.Byte>, b: seq<Utf8.Byte>)
    ensures ReplacePlus(a + b) == ReplacePlus(a) + ReplacePlus(b)
  {
  }

  /** The serializer's bytes for one byte, read back, give that byte and leave
      what follows to the rest of the decoding. */
  lemma PercentDecodeSerializedByte(b: Utf8.Byte, rest: seq<Utf8.Byte>)
    ensures PercentDecode(ReplacePlus(Utf8.Encode(SerializeByte(b))) + rest) == [b] + PercentDecode(rest)
  {
    var s := SerializeByte(b);
    Utf8.EncodeAscii(s);
    var e := Utf8.AsciiBytes(s);
    if b == 0x20 {
      assert ReplacePlus(e) == [0x20];
    } else if IsFormSafe(b) {
      assert ReplacePlus(e) == [b];
    } else {
      assert ReplacePlus(e) == e;
      var t := e + rest;
      assert t[0] == 0x25 && IsHexByte(t[1]) && IsHexByte(t[2]);
      assert HexByteValue(t[1]) * 16 + HexByteValue(t[2]) == b;
      assert t[3..] == rest;
    }
  }

  lemma {:induction false} PercentDecodeSerialized(bs: seq<Utf8.Byte>)
    ensures PercentDecode(ReplacePlus(Utf8.Encode(SerializeBytes(bs)))) == bs
    decreases |bs|
  {
    if bs != [] {
      var head := SerializeByte(bs[0]);
      var tail := SerializeBytes(bs[1..]);
      Utf8.EncodeAppend(head, tail);
      ReplacePlusAppend(Utf8.Encode(head), Utf8.Encode(tail));
      PercentDecodeSerializedByte(bs[0], ReplacePlus(Utf8.Encode(tail)));
      PercentDecodeSerialized(bs[1..]);
      assert [bs[0]] + bs[1..] == bs;
    }
  }

  /** A serialized name or value parses back to itself. */
  lemma ParseSerializedComponent(s: string)
    ensures ParseComponent(Utf8.Encode(SerializeComponent(s))) == s
  {
    PercentDecodeSerialized(Utf8.Encode(s));
    Utf8.DecodeEncode(s);
  }

  /** The serializer never writes '&' or '=', which delimit the pairs, nor a
      double quote or a question mark. */
  lemma {:induction false} SerializeBytesNoDelimiters(bs: seq<Utf8.Byte>)
    ensures '&' !in SerializeBytes(bs) && '=' !in SerializeBytes(bs)
    ensures '"' !in SerializeBytes(bs) && '?' !in SerializeBytes(bs)
    decreases |bs|
  {
    if bs != [] {
      SerializeBytesNoDelimiters(bs[1..]);
    }
  }

  /** A serialized query holds no double quote, so it can sit between the
      quotes of an HTML attribute as it is, and no '?'. */
  lemma SerializeNoQuote(ps: seq<Param>)
    ensures '"' !in Serialize(ps) && '?' !in Serialize(ps)
  {
    var parts := SerializePairs(ps);
    forall i | 0 <= i < |parts| ensures '"' !in parts[i] && '?' !in parts[i] {
      SerializePairsAt(ps, i);
      SerializeBytesNoDelimiters(Utf8.Encode(ps[i].name));
      SerializeBytesNoDelimiters(Utf8.Encode(ps[i].value));
    }
    JoinExcludes(parts, "&", '"');
    JoinExcludes(parts, "&", '?');
  }

  /** `toString()` is empty iff there are no pairs. */
  lemma {:induction false} SerializeEmpty(ps: seq<Param>)
    ensures Serialize(ps) == "" <==> ps == []
  {
    if ps != [] {
      var parts := SerializePairs(ps);
      SerializePairsAt(ps, 0);
      if |parts| > 1 {
        assert Serialize(ps) == parts[0] + "&" + Join(parts[1..], "&");
      }
    }
  }

  /** The query ends with the serialized value of the last pair. */
  lemma SerializeEndsWithLastValue(ps: seq<Param>)
    requires ps != []
    ensures EndsWith(Serialize(ps), SerializeComponent(ps[|ps| - 1].value))
  {
    var parts := SerializePairs(ps);
    SerializePairsAt(ps, |ps| - 1);
    var p := ps[|ps| - 1];
    var last := parts[|parts| - 1];
    var head := SerializeComponent(p.name) + "=";
    assert last == head + SerializeComponent(p.value);
    if |parts| == 1 {
      assert Serialize(ps) == head + SerializeComponent(p.value);
      AppendEndsWith(head, SerializeComponent(p.value));
    } else {
      var init := parts[..|parts| - 1];
      assert parts == init + [last];
      JoinAppend(init, "&", last);
      assert Serialize(ps) == (Join(init, "&") + "&" + head) + SerializeComponent(p.value);
      AppendEndsWith(Join(init, "&") + "&" + head, SerializeComponent(p.value));
    }
  }

  /** The UTF-8 bytes of a serialized component hold neither delimiter. */
  lemma EncodedComponentNoDelimiters(s: string)
    ensures 0x26 !in Utf8.Encode(SerializeComponent(s))
    ensures 0x3D !in Utf8.Encode(SerializeComponent(s))
  {
    var t := SerializeComponent(s);
    SerializeBytesNoDelimiters(Utf8.Encode(s));
    Utf8.EncodeAscii(t);
    var e := Utf8.AsciiBytes(t);
    forall i | 0 <= i < |e| ensures e[i] != 0x26 && e[i] != 0x3D {
      assert t[i] in t;
    }
  }

  lemma ParseSerializedPair(p: Param)
    ensures ParsePiece(Utf8.Encode(SerializePair(p))) == p
  {
    var a := Utf8.Encode(SerializeComponent(p.name));
    var b := Utf8.Encode(SerializeComponent(p.value));
    Utf8.EncodeAppend(SerializeComponent(p.name), "=");
    Utf8.EncodeAppend(SerializeComponent(p.name) + "=", SerializeComponent(p.value));
    assert Utf8.Encode("=") == [0x3D];
    EncodedComponentNoDelimiters(p.name);
    SplitCons(a, 0x3D, b);
    JoinSplit(b, 0x3D);
    ParseSerializedComponent(p.name);
    ParseSerializedComponent(p.value);
  }

  /** The UTF-8 bytes of each serialized pair, in order. */
  function EncodeEach(xs: seq<string>): (r: seq<seq<Utf8.Byte>>)
    ensures |r| == |xs|
    ensures forall i :: 0 <= i < |xs| ==> r[i] == Utf8.Encode(xs[i])
    decreases |xs|
  {
    if xs == [] then [] else [Utf8.Encode(xs[0])] + EncodeEach(xs[1..])
  }

  lemma {:induction false} EncodeJoin(xs: seq<string>)
    requires xs != []
    ensures Utf8.Encode(Join(xs, "&")) == Join(EncodeEach(xs), [0x26])
    decreases |xs|
  {
    if |xs| > 1 {
      Utf8.EncodeAppend(xs[0], "&");
      Utf8.EncodeAppend(xs[0] + "&", Join(xs[1..], "&"));
      assert Utf8.Encode("&") == [0x26];
      EncodeJoin(xs[1..]);
      assert EncodeEach(xs)[1..] == EncodeEach(xs[1..]);
    }
  }

  lemma {:induction false} ParsePiecesOfPairs(ps: seq<Param>)
    ensures ParsePieces(EncodeEach(SerializePairs(ps))) == ps
    decreases |ps|
  {
    if ps != [] {
      var pieces := EncodeEach(SerializePairs(ps));
      Utf8.EncodeAppend(SerializeComponent(ps[0].name), "=");
      Utf8.EncodeAppend(SerializeComponent(ps[0].name) + "=", SerializeComponent(ps[0].value));
      assert pieces[0] != [];
      ParseSerializedPair(ps[0]);
      assert pieces[1..] == EncodeEach(SerializePairs(ps[1..]));
      ParsePiecesOfPairs(ps[1..]);
      assert [ps[0]] + ps[1..] == ps;
    }
  }

  /** Parsing what `toString()` wrote gives back the same pairs in the same order. */
  lemma ParseSerialize(ps: seq<Param>)
    ensures Parse(Serialize(ps)) == ps
  {
    var strs := SerializePairs(ps);
    if ps == [] {
      assert Serialize(ps) == [];
      assert Split(Utf8.Encode([]), 0x26) == [[]];
    } else {
      EncodeJoin(strs);
      var pieces := EncodeEach(strs);
      forall i | 0 <= i < |pieces| ensures 0x26 !in pieces[i] {
        var p := ps[i];
        assert strs[i] == SerializePair(p) by { SerializePairsAt(ps, i); }
        Utf8.EncodeAppend(SerializeComponent(p.name), "=");
        Utf8.EncodeAppend(SerializeComponent(p.name) + "=", SerializeComponent(p.value));
        assert Utf8.Encode("=") == [0x3D];
        EncodedComponentNoDelimiters(p.name);
        EncodedComponentNoDelimiters(p.value);
      }
      SplitJoin(pieces, 0x26);
      ParsePiecesOfPairs(ps);
    }
  }

  lemma {:induction false} SerializePairsAt(ps: seq<Param>, i: nat)
    requires i < |ps|
    ensures SerializePairs(ps)[i] == SerializePair(ps[i])
    decreases i
  {
    if i > 0 {
      SerializePairsAt(ps[1..], i - 1);
    }
  }
}
