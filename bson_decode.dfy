/**
 * Reading BSON back (`BsonDocument.Read`): a document is its declared int32
 * size, elements that exactly fill the declared size, and a NUL terminator.
 * A truncated buffer, an unterminated name, an unknown type code, a size that
 * disagrees with the bytes, or a repeated name is a failure; there is no
 * partial result. Array element names are kept verbatim, so holes survive.
 */
module BsonDecode {
  import opened Bytes
  import opened Options
  import opened Bson

  /** The name stored as a C string at the front of s: the bytes before the first NUL. */
  function CString(s: seq<byte>): (r: Option<seq<byte>>)
    ensures r.Some? ==> |r.value| < |s| && s[|r.value|] == 0 && s[..|r.value|] == r.value && ValidName(r.value)
    ensures r.None? ==> 0 !in s
  {
    if s == [] then None
    else if s[0] == 0 then Some([])
    else
      match CString(s[1..])
      case None => None
      case Some(n) => Some([s[0]] + n)
  }

  lemma {:induction false} CStringOfName(name: seq<byte>, rest: seq<byte>)
    requires ValidName(name)
    ensures CString(name + [0] + rest) == Some(name)
  {
    if name != [] {
      var s := name + [0] + rest;
      assert s[0] == name[0] && name[0] != 0;
      assert s[1..] == name[1..] + [0] + rest;
      CStringOfName(name[1..], rest);
      assert [name[0]] + name[1..] == name;
    } else {
      assert (name + [0] + rest)[0] == 0;
    }
  }

  /** Parses one document at the front of b; yields the document and the bytes it occupies. */
  function ParseDoc(b: seq<byte>): (r: Option<(Doc, nat)>)
    ensures r.Some? ==> 5 <= r.value.1 <= |b|
    decreases |b|, 2
  {
    if |b| < 4 then None
    else
      var n: int := Int32Of(b[..4]);
      if n < 5 || n > |b| || b[n - 1] != 0 then None
      else
        match ParseElements(b[4..n - 1])
        case None => None
        case Some(es) => if UniqueNames(es) then Some((es, n as nat)) else None
  }

  /** Parses elements that fill s exactly. */
  function ParseElements(s: seq<byte>): Option<seq<Element>>
    decreases |s|, 1
  {
    if s == [] then Some([])
    else
      match ParseElement(s)
      case None => None
      case Some((e, k)) =>
        match ParseElements(s[k..])
        case None => None
        case Some(es) => Some([e] + es)
  }

  /** Parses one element: type byte, C-string name, payload. */
  function ParseElement(s: seq<byte>): (r: Option<(Element, nat)>)
    requires s != []
    ensures r.Some? ==> 0 < r.value.1 <= |s|
    decreases |s|, 0
  {
    match CString(s[1..])
    case None => None
    case Some(name) =>
      var p := 1 + |name| + 1;
      match ParseValue(s[0], s[p..])
      case None => None
      case Some((v, k)) => Some((Element(name, v), p + k))
  }

  /** Parses the payload of a value of type code t. */
  function ParseValue(t: byte, s: seq<byte>): (r: Option<(Value, nat)>)
    ensures r.Some? ==> r.value.1 <= |s|
    decreases |s|, 3
  {
    if t == 0x01 then
      if |s| < 8 then None else Some((Double(s[..8]), 8))
    else if t == 0x02 then
      if |s| < 4 then None
      else
        var len: int := Int32Of(s[..4]);
        if len < 1 || 4 + len > |s| || s[4 + len - 1] != 0 then None
        else Some((String(s[4..4 + len - 1]), 4 + len as nat))
    else if t == 0x03 then
      match ParseDoc(s)
      case None => None
      case Some((d, k)) => Some((Document(d), k))
    else if t == 0x04 then
      match ParseDoc(s)
      case None => None
      case Some((d, k)) => Some((Array(d), k))
    else if t == 0x07 then
      if |s| < 12 then None else Some((ObjectId(s[..12]), 12))
    else if t == 0x10 then
      if |s| < 4 then None else Some((Int32(Int32Of(s[..4])), 4))
    else None
  }

  /** `Read`: the document that b holds, when b is exactly one well-formed document. */
  function Decode(b: seq<byte>): Option<Doc>
  {
    match ParseDoc(b)
    case Some((d, n)) => if n == |b| then Some(d) else None
    case None => None
  }

  // ---------------------------------------------------------------- decode after encode

  lemma {:induction false} ParseValueOfEncode(v: Value, rest: seq<byte>)
    requires ValidValue(v)
    ensures ParseValue(TypeCode(v), EncodeValue(v) + rest) == Some((v, |EncodeValue(v)|))
    decreases v, 0
  {
    var s := EncodeValue(v) + rest;
    match v
    case Double(b) =>
      assert s[..8] == b;
    case String(t) =>
      var len := |t| + 1;
      assert s[..4] == Le32(len);
      Int32RoundTrip(len);
      assert s[4..4 + len - 1] == t;
      assert s[4 + len - 1] == 0;
    case Document(d) =>
      ParseDocOfEncode(d, rest);
      EncodeLength(d);
    case Array(d) =>
      ParseDocOfEncode(d, rest);
      EncodeLength(d);
    case ObjectId(o) =>
      assert s[..12] == o;
    case Int32(n) =>
      assert s[..4] == Le32(n);
      Int32RoundTrip(n);
  }

  lemma {:induction false} ParseElementOfEncode(e: Element, rest: seq<byte>)
    requires ValidName(e.name) && ValidValue(e.value)
    ensures ParseElement(EncodeElement(e) + rest) == Some((e, |EncodeElement(e)|))
    decreases e, 0
  {
    var s := EncodeElement(e) + rest;
    var tail := EncodeValue(e.value) + rest;
    assert s[1..] == e.name + [0] + tail;
    CStringOfName(e.name, tail);
    var p := 1 + |e.name| + 1;
    assert s[p..] == tail;
    ParseValueOfEncode(e.value, rest);
  }

  lemma {:induction false} ParseElementsOfEncode(es: seq<Element>)
    requires ValidElements(es)
    ensures ParseElements(EncodeElements(es)) == Some(es)
    decreases es, 0
  {
    if es != [] {
      var s := EncodeElements(es);
      var head := EncodeElement(es[0]);
      ParseElementOfEncode(es[0], EncodeElements(es[1..]));
      assert s[|head|..] == EncodeElements(es[1..]);
      ParseElementsOfEncode(es[1..]);
      assert [es[0]] + es[1..] == es;
    }
  }

  lemma {:induction false} ParseDocOfEncode(d: Doc, rest: seq<byte>)
    requires ValidDoc(d)
    ensures ParseDoc(Encode(d) + rest) == Some((d, Size(d)))
    decreases d, 1
  {
    var b := Encode(d) + rest;
    EncodeFraming(d);
    assert b[..4] == Encode(d)[..4];
    var n := Size(d);
    assert b[n - 1] == 0;
    assert b[4..n - 1] == EncodeElements(d);
    ParseElementsOfEncode(d);
  }

  /** Round trip: reading what the writer wrote gives back the document. */
  lemma DecodeEncode(d: Doc)
    requires ValidDoc(d)
    ensures Decode(Encode(d)) == Some(d)
  {
    ParseDocOfEncode(d, []);
    assert Encode(d) + [] == Encode(d);
    EncodeLength(d);
  }

  // ---------------------------------------------------------------- encode after decode

  lemma {:induction false} EncodeOfParseValue(t: byte, s: seq<byte>)
    requires ParseValue(t, s).Some?
    ensures var (v, k) := ParseValue(t, s).value;
      TypeCode(v) == t && EncodeValue(v) == s[..k] && ValidValue(v)
    decreases |s|, 3
  {
    if t == 0x02 {
      var len: int := Int32Of(s[..4]);
      BytesRoundTrip(s[..4]);
      assert s[..4 + len] == s[..4] + s[4..4 + len - 1] + [0];
    } else if t == 0x03 || t == 0x04 {
      EncodeOfParseDoc(s);
    } else if t == 0x10 {
      BytesRoundTrip(s[..4]);
    }
  }

  lemma {:induction false} EncodeOfParseElement(s: seq<byte>)
    requires s != [] && ParseElement(s).Some?
    ensures var (e, k) := ParseElement(s).value;
      EncodeElement(e) == s[..k] && ValidName(e.name) && ValidValue(e.value)
    decreases |s|, 0
  {
    var name := CString(s[1..]).value;
    var p := 1 + |name| + 1;
    EncodeOfParseValue(s[0], s[p..]);
    var (v, k) := ParseValue(s[0], s[p..]).value;
    assert s[..p + k] == [s[0]] + name + [0] + s[p..][..k];
  }

  lemma {:induction false} EncodeOfParseElements(s: seq<byte>)
    requires ParseElements(s).Some?
    ensures EncodeElements(ParseElements(s).value) == s
    ensures ValidElements(ParseElements(s).value)
    decreases |s|, 1
  {
    if s != [] {
      var (e, k) := ParseElement(s).value;
      EncodeOfParseElement(s);
      EncodeOfParseElements(s[k..]);
      var es := ParseElements(s).value;
      assert es[0] == e && es[1..] == ParseElements(s[k..]).value;
      assert s == s[..k] + s[k..];
    }
  }

  lemma {:induction false} EncodeOfParseDoc(b: seq<byte>)
    requires ParseDoc(b).Some?
    ensures var (d, n) := ParseDoc(b).value;
      Encode(d) == b[..n] && Size(d) == n && ValidDoc(d)
    decreases |b|, 2
  {
    var (d, n) := ParseDoc(b).value;
    var body := b[4..n - 1];
    EncodeOfParseElements(body);
    EncodeElementsLength(d);
    assert Size(d) == n;
    BytesRoundTrip(b[..4]);
    assert b[..n] == b[..4] + body + [0];
  }

  /** Round trip on bytes: re-encoding what was read reproduces the input exactly. */
  lemma EncodeDecode(b: seq<byte>)
    requires Decode(b).Some?
    ensures Encode(Decode(b).value) == b
    ensures ValidDoc(Decode(b).value)
  {
    EncodeOfParseDoc(b);
    assert b[..|b|] == b;
  }

  /** Decoding accepts exactly the encodings of valid documents. */
  lemma DecodeIsInverse(b: seq<byte>, d: Doc)
    ensures Decode(b) == Some(d) <==> ValidDoc(d) && Encode(d) == b
  {
    if Decode(b) == Some(d) {
      EncodeDecode(b);
    }
    if ValidDoc(d) && Encode(d) == b {
      DecodeEncode(d);
    }
  }
}
