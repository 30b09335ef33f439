/**
 * `BsonDocument`: an ordered list of named elements that is grown in place by
 * `Add` (three overloads) and the chainable `Append`, measured by `Count` and
 * `Size`, written by `Write` and filled by `Read`. Names are keys: adding a
 * name the document already holds is refused and leaves the document as it
 * was.
 */
module BsonDocuments {
  import opened Bytes
  import opened Options
  import opened Bson
  import opened BsonDecode

  class BsonDocument {
    var elements: seq<Element>

    /** Every name occurs once. */
    predicate Valid()
      reads this
    {
      UniqueNames(elements)
    }

    constructor()
      ensures elements == [] && Valid()
    {
      elements := [];
    }

    function Count(): nat
      reads this
    {
      |elements|
    }

    /** `Size`: the number of bytes `Write` produces. */
    function Size(): (n: nat)
      reads this
      ensures n == |Encode(elements)|
      ensures n >= 5
    {
      EncodeLength(elements);
      Bson.Size(elements)
    }

    /** `bdoc[name]`: the value stored under `name`. */
    function Get(name: seq<byte>): (r: Option<Value>)
      reads this
      ensures r.Some? <==> HasName(elements, name)
      ensures r.Some? ==> Element(name, r.value) in elements
    {
      Lookup(elements, name)
    }

    /** `Add(name, value)`: appends the element when the name is new. */
    method Add(name: seq<byte>, value: Value) returns (added: bool)
      requires Valid()
      modifies this
      ensures Valid()
      ensures added <==> !HasName(old(elements), name)
      ensures elements == if added then old(elements) + [Element(name, value)] else old(elements)
      ensures Count() == old(Count()) + (if added then 1 else 0)
    {
      added := Get(name).None?;
      if added {
        elements := elements + [Element(name, value)];
      }
    }

    /** `Add(element)`: the element goes in under its own name. */
    method AddElement(e: Element) returns (added: bool)
      requires Valid()
      modifies this
      ensures Valid()
      ensures added <==> !HasName(old(elements), e.name)
      ensures elements == if added then old(elements) + [e] else old(elements)
    {
      added := Add(e.name, e.value);
    }

    /** `Add(name, element)`: the element's value goes in under `name`. */
    method AddNamed(name: seq<byte>, e: Element) returns (added: bool)
      requires Valid()
      modifies this
      ensures Valid()
      ensures added <==> !HasName(old(elements), name)
      ensures elements == if added then old(elements) + [Element(name, e.value)] else old(elements)
    {
      added := Add(name, e.value);
    }

    /** `Append(name, element)`: `Add(name, element)` returning the document itself, for chaining. */
    method Append(name: seq<byte>, e: Element) returns (self: BsonDocument, added: bool)
      requires Valid()
      modifies this
      ensures self == this && Valid()
      ensures added <==> !HasName(old(elements), name)
      ensures elements == if added then old(elements) + [Element(name, e.value)] else old(elements)
    {
      added := AddNamed(name, e);
      self := this;
    }

    /** `Write`: the encoding, whose leading int32 is `Size` and which reads back as this document. */
    method Write() returns (bytes: seq<byte>)
      ensures bytes == Encode(elements)
      ensures |bytes| == Size()
      ensures ValidDoc(elements) ==> Int32Of(bytes[..4]) == Size() && Decode(bytes) == Some(elements)
    {
      bytes := Encode(elements);
      if ValidDoc(elements) {
        EncodeFraming(elements);
        DecodeEncode(elements);
      }
    }

    /**
     * `Read`: appends the elements of the one document that `bytes` holds. Bytes
     * that are not exactly one well-formed document, or that name an element the
     * document already holds, leave the document unchanged.
     */
    method Read(bytes: seq<byte>) returns (ok: bool)
      requires Valid()
      modifies this
      ensures Valid()
      ensures ok <==> Decode(bytes).Some? && UniqueNames(old(elements) + Decode(bytes).value)
      ensures elements == if ok then old(elements) + Decode(bytes).value else old(elements)
      ensures ok && old(elements) == [] ==> Encode(elements) == bytes
    {
      var d := Decode(bytes);
      ok := d.Some? && UniqueNames(elements + d.value);
      if ok {
        elements := elements + d.value;
        if old(elements) == [] {
          assert elements == d.value;
          EncodeDecode(bytes);
        }
      }
    }
  }
}
