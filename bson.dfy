/**
 * The BSON value model (the subset of BSON 1.0 this driver's tests exercise)
 * and its byte encoding:
 *
 *   document ::= int32 e_list "\x00"
 *   element  ::= type e_name value
 *
 * Names and string payloads are carried as the UTF-8 bytes the writer emits.
 */
module Bson {
  import opened Bytes
  import opened Options

  /** A Double is carried as its opaque 8-byte little-endian IEEE-754 payload. */
  type DoubleBits = s: seq<byte> | |s| == 8 witness [0, 0, 0, 0, 0, 0, 0, 0]

  /** An ObjectId is 12 raw bytes. */
  type ObjectIdBytes = s: seq<byte> | |s| == 12 witness [0, 0, 0, 0, 0, 0, 0, 0, 0, 0, 0, 0]

  datatype Value =
    | Double(bits: DoubleBits)        // type 0x01
    | String(text: seq<byte>)         // type 0x02
    | Document(doc: seq<Element>)     // type 0x03
    | Array(doc: seq<Element>)        // type 0x04: element names "0", "1", ... (holes allowed)
    | ObjectId(oid: ObjectIdBytes)    // type 0x07
    | Int32(n: int32)                 // type 0x10

  datatype Element = Element(name: seq<byte>, value: Value)

  /** A BSON document: its elements in insertion order, which is also the order written. */
  type Doc = seq<Element>

  function TypeCode(v: Value): byte
  {
    match v
    case Double(_) => 0x01
    case String(_) => 0x02
    case Document(_) => 0x03
    case Array(_) => 0x04
    case ObjectId(_) => 0x07
    case Int32(_) => 0x10
  }

  // ---------------------------------------------------------------- sizes

  function PayloadSize(v: Value): nat
    decreases v, 0
  {
    match v
    case Double(_) => 8
    case String(s) => 4 + |s| + 1
    case Document(d) => Size(d)
    case Array(d) => Size(d)
    case ObjectId(_) => 12
    case Int32(_) => 4
  }

  /** type byte + name + NUL + payload */
  function ElementSize(e: Element): nat
    decreases e, 0
  {
    1 + |e.name| + 1 + PayloadSize(e.value)
  }

  function ElementsSize(es: seq<Element>): nat
    decreases es, 0
  {
    if es == [] then 0 else ElementSize(es[0]) + ElementsSize(es[1..])
  }

  /** `BsonDocument.Size`: length prefix + elements + terminator. */
  function Size(d: Doc): nat
    decreases d, 1
  {
    4 + ElementsSize(d) + 1
  }

  /** Size is additive over the elements of a document. */
  lemma {:induction false} ElementsSizeAppend(a: seq<Element>, b: seq<Element>)
    ensures ElementsSize(a + b) == ElementsSize(a) + ElementsSize(b)
  {
    if a != [] {
      assert (a + b)[0] == a[0] && (a + b)[1..] == a[1..] + b;
      ElementsSizeAppend(a[1..], b);
    } else {
      assert a + b == b;
    }
  }

  /** Adding one element grows the size by exactly that element's encoded size. */
  lemma SizeAppend(d: Doc, e: Element)
    ensures Size(d + [e]) == Size(d) + ElementSize(e)
  {
    ElementsSizeAppend(d, [e]);
    assert ElementsSize([e]) == ElementSize(e) by {
      assert [e][1..] == [];
    }
  }

  // ---------------------------------------------------------------- encoding

  function EncodeValue(v: Value): seq<byte>
    decreases v, 0
  {
    match v
    case Double(b) => b
    case String(s) => Le32(|s| + 1) + s + [0]
    case Document(d) => Encode(d)
    case Array(d) => Encode(d)
    case ObjectId(o) => o
    case Int32(n) => Le32(n)
  }

  function EncodeElement(e: Element): seq<byte>
    decreases e, 0
  {
    [TypeCode(e.value)] + e.name + [0] + EncodeValue(e.value)
  }

  function EncodeElements(es: seq<Element>): seq<byte>
    decreases es, 0
  {
    if es == [] then [] else EncodeElement(es[0]) + EncodeElements(es[1..])
  }

  /** `BsonDocument.Write`: the bytes of a document. */
  function Encode(d: Doc): seq<byte>
    decreases d, 1
  {
    Le32(Size(d)) + EncodeElements(d) + [0]
  }

  lemma {:induction false} EncodeValueLength(v: Value)
    ensures |EncodeValue(v)| == PayloadSize(v)
    decreases v, 0
  {
    match v
    case Document(d) => EncodeLength(d);
    case Array(d) => EncodeLength(d);
    case _ =>
  }

  lemma {:induction false} EncodeElementsLength(es: seq<Element>)
    ensures |EncodeElements(es)| == ElementsSize(es)
    decreases es, 0
  {
    if es != [] {
      EncodeValueLength(es[0].value);
      EncodeElementsLength(es[1..]);
    }
  }

  /** `Size` is the exact number of bytes `Write` produces. */
  lemma {:induction false} EncodeLength(d: Doc)
    ensures |Encode(d)| == Size(d)
    decreases d, 1
  {
    EncodeElementsLength(d);
  }

  /** The leading int32 of an encoded document is its size, and the last byte is the terminator. */
  lemma EncodeFraming(d: Doc)
    requires Size(d) <= INT32_MAX
    ensures |Encode(d)| == Size(d) >= 5
    ensures Int32Of(Encode(d)[..4]) == Size(d)
    ensures Encode(d)[Size(d) - 1] == 0
  {
    EncodeLength(d);
    assert Encode(d)[..4] == Le32(Size(d));
    Int32RoundTrip(Size(d));
  }

  lemma {:induction false} EncodeElementsAppend(a: seq<Element>, b: seq<Element>)
    ensures EncodeElements(a + b) == EncodeElements(a) + EncodeElements(b)
  {
    if a != [] {
      assert (a + b)[0] == a[0] && (a + b)[1..] == a[1..] + b;
      EncodeElementsAppend(a[1..], b);
    } else {
      assert a + b == b;
    }
  }

  // ---------------------------------------------------------------- lookup and validity

  /** The value stored under `name` (`bdoc[name]`), or None. */
  function Lookup(d: Doc, name: seq<byte>): (r: Option<Value>)
    ensures r.Some? <==> exists i :: 0 <= i < |d| && d[i].name == name
    ensures r.Some? ==> exists i :: 0 <= i < |d| && d[i] == Element(name, r.value)
  {
    if d == [] then None
    else if d[0].name == name then Some(d[0].value)
    else
      var r := Lookup(d[1..], name);
      assert forall i :: 1 <= i < |d| ==> d[i] == d[1..][i - 1];
      r
  }

  predicate HasName(d: Doc, name: seq<byte>)
  {
    exists i :: 0 <= i < |d| && d[i].name == name
  }

  predicate UniqueNames(d: Doc)
  {
    forall i, j :: 0 <= i < j < |d| ==> d[i].name != d[j].name
  }

  /** An element name is written as a C string, so it may not contain NUL. */
  predicate ValidName(name: seq<byte>)
  {
    0 !in name
  }

  predicate ValidValue(v: Value)
    decreases v, 0
  {
    match v
    case String(s) => |s| < INT32_MAX
    case Document(d) => ValidDoc(d)
    case Array(d) => ValidDoc(d)
    case _ => true
  }

  predicate ValidElements(es: seq<Element>)
    decreases es, 0
  {
    es == [] || (ValidName(es[0].name) && ValidValue(es[0].value) && ValidElements(es[1..]))
  }

  /**
   * A document the writer can emit so that it reads back: its length fits an
   * int32, its names are unique C strings, and so, recursively, are its parts.
   */
  predicate ValidDoc(d: Doc)
    decreases d, 1
  {
    Size(d) <= INT32_MAX && UniqueNames(d) && ValidElements(d)
  }
}
