/**
 * The byte vectors that the BSON document tests pin, stated against the
 * model. Each expected encoding is written as its rows: the length prefix,
 * one row per element (type byte, name, NUL, payload) and the terminator,
 * exactly the bytes of the test's hex text in order. The scenario methods
 * replay each test's calls on a `BsonDocument`.
 */
module BsonVectors {
  import opened Bytes
  import opened Options
  import opened Bson
  import opened BsonDecode
  import opened BsonDocuments
  import opened Hex

  // ---------------------------------------------------------------- rows

  /** The rows laid end to end. */
  function Flatten(rows: seq<seq<byte>>): seq<byte>
  {
    if rows == [] then [] else rows[0] + Flatten(rows[1..])
  }

  lemma {:induction false} FlattenAppend(a: seq<seq<byte>>, b: seq<seq<byte>>)
    ensures Flatten(a + b) == Flatten(a) + Flatten(b)
  {
    if a != [] {
      assert (a + b)[0] == a[0] && (a + b)[1..] == a[1..] + b;
      FlattenAppend(a[1..], b);
    } else {
      assert a + b == b;
    }
  }

  /** A row that is itself made of rows can be spliced into its surroundings. */
  lemma FlattenSplice(p: seq<seq<byte>>, inner: seq<seq<byte>>, q: seq<seq<byte>>)
    ensures Flatten(p + [Flatten(inner)] + q) == Flatten(p + inner + q)
  {
    FlattenAppend(p + [Flatten(inner)], q);
    FlattenAppend(p, [Flatten(inner)]);
    FlattenAppend(p + inner, q);
    FlattenAppend(p, inner);
    assert Flatten([Flatten(inner)]) == Flatten(inner);
  }

  /** The encoding of each element, in order. */
  function ElementRows(es: seq<Element>): (rows: seq<seq<byte>>)
    ensures |rows| == |es| && forall i :: 0 <= i < |es| ==> rows[i] == EncodeElement(es[i])
  {
    seq(|es|, i requires 0 <= i < |es| => EncodeElement(es[i]))
  }

  lemma {:induction false} EncodeElementsRows(es: seq<Element>)
    ensures EncodeElements(es) == Flatten(ElementRows(es))
  {
    if es != [] {
      EncodeElementsRows(es[1..]);
      assert ElementRows(es)[1..] == ElementRows(es[1..]);
    }
  }

  /** An encoded document is its length prefix, its element rows and the terminator. */
  lemma EncodeRows(d: Doc)
    ensures Encode(d) == Flatten([Le32(Size(d))] + ElementRows(d) + [[0]])
  {
    EncodeElementsRows(d);
    FlattenAppend([Le32(Size(d))] + ElementRows(d), [[0]]);
    FlattenAppend([Le32(Size(d))], ElementRows(d));
    assert Flatten([[0]]) == [0];
    assert Flatten([Le32(Size(d))]) == Le32(Size(d));
  }

  /** A three-element document is its length prefix, three element rows and the terminator. */
  lemma ThreeRows(d: Doc)
    requires |d| == 3
    ensures Encode(d) == Flatten([Le32(Size(d)), EncodeElement(d[0]), EncodeElement(d[1]), EncodeElement(d[2]), [0]])
  {
    EncodeRows(d);
    var rows := [Le32(Size(d))] + ElementRows(d) + [[0]];
    assert |rows| == 5;
    assert rows[1] == EncodeElement(d[0]) && rows[2] == EncodeElement(d[1]) && rows[3] == EncodeElement(d[2]);
    assert rows == [Le32(Size(d)), EncodeElement(d[0]), EncodeElement(d[1]), EncodeElement(d[2]), [0]];
  }

  /** A two-element document is its length prefix, two element rows and the terminator. */
  lemma TwoRows(d: Doc)
    requires |d| == 2
    ensures Encode(d) == Flatten([Le32(Size(d)), EncodeElement(d[0]), EncodeElement(d[1]), [0]])
  {
    EncodeRows(d);
    var rows := [Le32(Size(d))] + ElementRows(d) + [[0]];
    assert |rows| == 4;
    assert rows[1] == EncodeElement(d[0]) && rows[2] == EncodeElement(d[1]);
    assert rows == [Le32(Size(d)), EncodeElement(d[0]), EncodeElement(d[1]), [0]];
  }

  /** The size of a two-element document, element by element. */
  lemma SizeOfTwo(d: Doc)
    requires |d| == 2
    ensures Size(d) == 5 + ElementSize(d[0]) + ElementSize(d[1])
  {
    var t := d[1..];
    assert t[0] == d[1] && t[1..] == [];
    assert ElementsSize(t) == ElementSize(d[1]);
  }

  /** The size of a three-element document, element by element. */
  lemma SizeOfThree(d: Doc)
    requires |d| == 3
    ensures Size(d) == 5 + ElementSize(d[0]) + ElementSize(d[1]) + ElementSize(d[2])
  {
    var t := d[1..];
    var u := t[1..];
    assert t[0] == d[1] && u[0] == d[2] && u[1..] == [];
    assert ElementsSize(u) == ElementSize(d[2]);
    assert ElementsSize(t) == ElementSize(d[1]) + ElementSize(d[2]);
  }

  /** A length below 256 is written as one byte followed by three zero bytes. */
  lemma Le32Small(x: nat)
    requires x < 256
    ensures Le32(x) == [x as byte, 0, 0, 0]
  {
    assert x % TWO_32 == x;
    assert LeBytes(0, 3) == [0, 0, 0];
  }

  /** An element holding a double is its type byte, its name, NUL and the 8-byte payload. */
  lemma DoubleRow(name: seq<byte>, bits: DoubleBits)
    ensures EncodeElement(Element(name, Double(bits))) == [0x01] + name + [0x00] + bits
  {
  }

  /** An element holding a string is its type byte, its name, NUL, the length with NUL, the text and NUL. */
  lemma StringRow(name: seq<byte>, text: seq<byte>)
    ensures EncodeElement(Element(name, String(text))) == [0x02] + name + [0x00] + (Le32(|text| + 1) + text + [0x00])
  {
  }

  // ---------------------------------------------------------------- names and payloads

  const ID: seq<byte> := [0x5F, 0x69, 0x64]                      // "_id"
  const A: seq<byte> := [0x61]                                   // "a"
  const B: seq<byte> := [0x62]                                   // "b"
  const TEST: seq<byte> := [0x74, 0x65, 0x73, 0x74]              // "test"
  const SUB: seq<byte> := [0x73, 0x75, 0x62]                     // "sub"
  const SUB_TEST: seq<byte> := [0x73, 0x75, 0x62, 0x20, 0x74, 0x65, 0x73, 0x74]  // "sub test"
  const ARRAY: seq<byte> := [0x61, 0x72, 0x72, 0x61, 0x79]       // "array"

  /** The names and strings above are the bytes of the tests' string literals. */
  lemma NamesAreAscii()
    ensures ID == Ascii("_id") && A == Ascii("a") && B == Ascii("b")
    ensures TEST == Ascii("test") && SUB == Ascii("sub") && SUB_TEST == Ascii("sub test")
    ensures ARRAY == Ascii("array")
    ensures forall i :: 0 <= i < 10 ==> Digit(i) == Ascii([('0' as int + i) as char])
  {
  }

  /** `Convert.ToString(i)` for a single decimal digit. */
  function Digit(i: nat): (name: seq<byte>)
    requires i < 10
    ensures |name| == 1 && name[0] as int == '0' as int + i
  {
    [(0x30 + i) as byte]
  }

  // The 8-byte little-endian IEEE-754 payloads of the doubles the tests use.
  const D1: DoubleBits := [0, 0, 0, 0, 0, 0, 0xF0, 0x3F]         // 1.0
  const D2: DoubleBits := [0, 0, 0, 0, 0, 0, 0x00, 0x40]         // 2.0
  const D3: DoubleBits := [0, 0, 0, 0, 0, 0, 0x08, 0x40]         // 3.0
  const D4: DoubleBits := [0, 0, 0, 0, 0, 0, 0x10, 0x40]         // 4.0
  const D5: DoubleBits := [0, 0, 0, 0, 0, 0, 0x14, 0x50]         // as the array test's hex has it
  const D6: DoubleBits := [0, 0, 0, 0, 0, 0, 0x18, 0x40]         // 6.0
  const D7: DoubleBits := [0, 0, 0, 0, 0, 0, 0x1C, 0x40]         // 7.0
  const D8: DoubleBits := [0, 0, 0, 0, 0, 0, 0x20, 0x40]         // 8.0

  const OID_ELEMENTS: ObjectIdBytes := [0x4A, 0x75, 0x3A, 0xD8, 0xFA, 0xC1, 0x6E, 0xA5, 0x8B, 0x29, 0x03, 0x51]
  const OID_NUMBERS: ObjectIdBytes := [0x4A, 0x75, 0x38, 0x4C, 0xFA, 0xC1, 0x6E, 0xA5, 0x8B, 0x29, 0x03, 0x50]
  const OID_ARRAY: ObjectIdBytes := [0x4A, 0x78, 0x93, 0x79, 0x17, 0x22, 0x00, 0x00, 0x00, 0x00, 0x61, 0xCF]
  const OID_HOLES: ObjectIdBytes := [0x4A, 0x79, 0xBF, 0xD5, 0x17, 0x22, 0x00, 0x00, 0x00, 0x00, 0x61, 0xD3]

  // ---------------------------------------------------------------- the empty document

  /** An empty document has size 5 and dumps as "0500000000". */
  lemma EmptyDocumentVector()
    ensures Size([]) == 5
    ensures Encode([]) == [0x05, 0x00, 0x00, 0x00, 0x00]
    ensures HexEncode(Encode([]), true) == "0500000000"
  {
    Le32Small(5);
  }

  // ---------------------------------------------------------------- {test: "test"}

  const FormattingDoc: Doc := [Element(TEST, String(TEST))]

  /** The dump "1400000002746573740005000000746573740000", row by row. */
  const FormattingRows: seq<seq<byte>> := [
    [0x14, 0x00, 0x00, 0x00],
    [0x02, 0x74, 0x65, 0x73, 0x74, 0x00, 0x05, 0x00, 0x00, 0x00, 0x74, 0x65, 0x73, 0x74, 0x00],
    [0x00]]

  const FormattingBytes: seq<byte> := Flatten(FormattingRows)

  lemma FormattingSizeOf(d: Doc)
    requires d == FormattingDoc
    ensures Size(d) == 20
  {
    assert ElementsSize(d) == 15 by {
      assert d[1..] == [];
    }
  }

  lemma FormattingRowsOf(d: Doc)
    requires d == FormattingDoc
    ensures EncodeElement(d[0]) == FormattingRows[1]
  {
    Le32Small(5);
    StringRow(TEST, TEST);
  }

  /** `{test: "test"}` has size 20 and writes exactly the test's dump. */
  lemma FormattingVector(d: Doc)
    requires d == FormattingDoc
    ensures Size(d) == 20
    ensures Encode(d) == FormattingBytes
  {
    FormattingSizeOf(d);
    FormattingRowsOf(d);
    EncodeRows(d);
    Le32Small(20);
    assert [Le32(Size(d))] + ElementRows(d) + [[0]] == [FormattingRows[0], FormattingRows[1], [0]];
    assert [FormattingRows[0], FormattingRows[1], [0]] == FormattingRows;
  }

  // ---------------------------------------------------------------- {_id, a: 1.0, b: "test"}

  const ElementsDoc: Doc := [Element(ID, ObjectId(OID_ELEMENTS)), Element(A, Double(D1)), Element(B, String(TEST))]

  /** The dump "2D000000075F6964004A753AD8FAC16EA58B290351016100000000000000F03F02620005000000746573740000", row by row. */
  const ElementsRows: seq<seq<byte>> := [
    [0x2D, 0x00, 0x00, 0x00],
    [0x07, 0x5F, 0x69, 0x64, 0x00, 0x4A, 0x75, 0x3A, 0xD8, 0xFA, 0xC1, 0x6E, 0xA5, 0x8B, 0x29, 0x03, 0x51],
    [0x01, 0x61, 0x00, 0x00, 0x00, 0x00, 0x00, 0x00, 0x00, 0xF0, 0x3F],
    [0x02, 0x62, 0x00, 0x05, 0x00, 0x00, 0x00, 0x74, 0x65, 0x73, 0x74, 0x00],
    [0x00]]

  const ElementsBytes: seq<byte> := Flatten(ElementsRows)

  lemma ElementsSizeOf(d: Doc)
    requires d == ElementsDoc
    ensures Size(d) == 45
  {
    assert ElementSize(d[0]) == 17 && ElementSize(d[1]) == 11 && ElementSize(d[2]) == 12;
    assert ElementsSize([d[2]]) == 12;
    assert ElementsSize([d[1], d[2]]) == 23;
    assert d[1..] == [d[1], d[2]];
  }

  lemma ElementsRowsOf(d: Doc)
    requires d == ElementsDoc
    ensures [EncodeElement(d[0]), EncodeElement(d[1]), EncodeElement(d[2])] == ElementsRows[1..4]
  {
    assert EncodeElement(d[0]) == ElementsRows[1];
    DoubleRow(A, D1);
    assert EncodeElement(d[1]) == ElementsRows[2];
    Le32Small(5);
    StringRow(B, TEST);
    assert EncodeElement(d[2]) == ElementsRows[3];
  }

  /** `_id`, `a`, `b` are written in insertion order; 1.0 is the payload 000000000000F03F. */
  lemma ElementsVector(d: Doc)
    requires d == ElementsDoc
    ensures Size(d) == 45
    ensures Encode(d) == ElementsBytes
  {
    ElementsSizeOf(d);
    ElementsRowsOf(d);
    ThreeRows(d);
    Le32Small(45);
    assert [Le32(45)] + ElementsRows[1..4] + [[0]] == ElementsRows;
  }

  // ---------------------------------------------------------------- {_id, a: 1.0, b: 2.0}

  const NumbersDoc: Doc := [Element(ID, ObjectId(OID_NUMBERS)), Element(A, Double(D1)), Element(B, Double(D2))]

  /** The dump "2C000000075F6964004A75384CFAC16EA58B290350016100000000000000F03F016200000000000000004000", row by row. */
  const NumbersRows: seq<seq<byte>> := [
    [0x2C, 0x00, 0x00, 0x00],
    [0x07, 0x5F, 0x69, 0x64, 0x00, 0x4A, 0x75, 0x38, 0x4C, 0xFA, 0xC1, 0x6E, 0xA5, 0x8B, 0x29, 0x03, 0x50],
    [0x01, 0x61, 0x00, 0x00, 0x00, 0x00, 0x00, 0x00, 0x00, 0xF0, 0x3F],
    [0x01, 0x62, 0x00, 0x00, 0x00, 0x00, 0x00, 0x00, 0x00, 0x00, 0x40],
    [0x00]]

  const NumbersBytes: seq<byte> := Flatten(NumbersRows)

  lemma NumbersSizeOf(d: Doc)
    requires d == NumbersDoc
    ensures Size(d) == 44
  {
    assert ElementSize(d[0]) == 17 && ElementSize(d[1]) == 11 && ElementSize(d[2]) == 11;
    assert ElementsSize([d[2]]) == 11;
    assert ElementsSize([d[1], d[2]]) == 22;
    assert d[1..] == [d[1], d[2]];
  }

  lemma NumbersRowsOf(d: Doc)
    requires d == NumbersDoc
    ensures [EncodeElement(d[0]), EncodeElement(d[1]), EncodeElement(d[2])] == NumbersRows[1..4]
  {
    assert EncodeElement(d[0]) == NumbersRows[1];
    DoubleRow(A, D1);
    assert EncodeElement(d[1]) == NumbersRows[2];
    DoubleRow(B, D2);
    assert EncodeElement(d[2]) == NumbersRows[3];
  }

  /** Two doubles: 1.0 and 2.0 are the payloads 000000000000F03F and 0000000000000040. */
  lemma NumbersVector(d: Doc)
    requires d == NumbersDoc
    ensures Size(d) == 44
    ensures Encode(d) == NumbersBytes
  {
    NumbersSizeOf(d);
    NumbersRowsOf(d);
    ThreeRows(d);
    Le32Small(44);
    assert [Le32(44)] + NumbersRows[1..4] + [[0]] == NumbersRows;
  }

  // ---------------------------------------------------------------- {_id, a: [1.0 .. 8.0], b: "test"}

  lemma {:induction false} ElementsSizeUniform(es: seq<Element>, k: nat)
    requires forall i :: 0 <= i < |es| ==> ElementSize(es[i]) == k
    ensures ElementsSize(es) == k * |es|
  {
    if es != [] {
      ElementsSizeUniform(es[1..], k);
    }
  }

  /** The array stored under "a": eight doubles under the names "0" to "7". */
  const ArrayItems: Doc := [
    Element([0x30], Double(D1)), Element([0x31], Double(D2)), Element([0x32], Double(D3)), Element([0x33], Double(D4)),
    Element([0x34], Double(D5)), Element([0x35], Double(D6)), Element([0x36], Double(D7)), Element([0x37], Double(D8))]

  const ArrayItemsRows: seq<seq<byte>> := [
    [0x5D, 0x00, 0x00, 0x00],
    [0x01, 0x30, 0x00, 0x00, 0x00, 0x00, 0x00, 0x00, 0x00, 0xF0, 0x3F],
    [0x01, 0x31, 0x00, 0x00, 0x00, 0x00, 0x00, 0x00, 0x00, 0x00, 0x40],
    [0x01, 0x32, 0x00, 0x00, 0x00, 0x00, 0x00, 0x00, 0x00, 0x08, 0x40],
    [0x01, 0x33, 0x00, 0x00, 0x00, 0x00, 0x00, 0x00, 0x00, 0x10, 0x40],
    [0x01, 0x34, 0x00, 0x00, 0x00, 0x00, 0x00, 0x00, 0x00, 0x14, 0x50],
    [0x01, 0x35, 0x00, 0x00, 0x00, 0x00, 0x00, 0x00, 0x00, 0x18, 0x40],
    [0x01, 0x36, 0x00, 0x00, 0x00, 0x00, 0x00, 0x00, 0x00, 0x1C, 0x40],
    [0x01, 0x37, 0x00, 0x00, 0x00, 0x00, 0x00, 0x00, 0x00, 0x20, 0x40],
    [0x00]]

  lemma ArrayItemsElementRows(d: Doc)
    requires d == ArrayItems
    ensures ElementRows(d) == ArrayItemsRows[1..9]
  {
    DoubleRow([0x30], D1);
    assert ElementRows(d)[0] == ArrayItemsRows[1];
    DoubleRow([0x31], D2);
    assert ElementRows(d)[1] == ArrayItemsRows[2];
    DoubleRow([0x32], D3);
    assert ElementRows(d)[2] == ArrayItemsRows[3];
    DoubleRow([0x33], D4);
    assert ElementRows(d)[3] == ArrayItemsRows[4];
    DoubleRow([0x34], D5);
    assert ElementRows(d)[4] == ArrayItemsRows[5];
    DoubleRow([0x35], D6);
    assert ElementRows(d)[5] == ArrayItemsRows[6];
    DoubleRow([0x36], D7);
    assert ElementRows(d)[6] == ArrayItemsRows[7];
    DoubleRow([0x37], D8);
    assert ElementRows(d)[7] == ArrayItemsRows[8];
  }

  lemma ArrayItemsSize(d: Doc)
    requires d == ArrayItems
    ensures Size(d) == 93
  {
    forall i | 0 <= i < 8
      ensures ElementSize(d[i]) == 11
    {
    }
    ElementsSizeUniform(d, 11);
  }

  lemma ArrayItemsVector(d: Doc)
    requires d == ArrayItems
    ensures Size(d) == 93
    ensures Encode(d) == Flatten(ArrayItemsRows)
  {
    ArrayItemsSize(d);
    EncodeRows(d);
    Le32Small(93);
    ArrayItemsElementRows(d);
    assert [Le32(93)] + ArrayItemsRows[1..9] + [[0]] == ArrayItemsRows;
  }

  const ArrayHead: seq<byte> := [0x04, 0x61, 0x00]
  const ArrayIdRow: seq<byte> := [0x07, 0x5F, 0x69, 0x64, 0x00, 0x4A, 0x78, 0x93, 0x79, 0x17, 0x22, 0x00, 0x00, 0x00, 0x00, 0x61, 0xCF]
  const ArrayTailRow: seq<byte> := [0x02, 0x62, 0x00, 0x05, 0x00, 0x00, 0x00, 0x74, 0x65, 0x73, 0x74, 0x00]

  /**
   * The hex text of the array test, "82000000075f6964004a7893791722...", row by
   * row: the length 0x82, the "_id" row, the row that opens "a" followed by the
   * rows of the array itself, the "b" row and the terminator.
   */
  const ArrayRows: seq<seq<byte>> :=
    [[0x82, 0x00, 0x00, 0x00], ArrayIdRow] + ([ArrayHead] + ArrayItemsRows) + [ArrayTailRow, [0x00]]

  const ArrayBytes: seq<byte> := Flatten(ArrayRows)

  const ArrayDoc: Doc := [Element(ID, ObjectId(OID_ARRAY)), Element(A, Array(ArrayItems)), Element(B, String(TEST))]

  lemma ArrayElementRow(d: Doc)
    requires d == ArrayDoc
    ensures ElementSize(d[1]) == 96
    ensures EncodeElement(d[1]) == Flatten([ArrayHead] + ArrayItemsRows)
  {
    ArrayItemsVector(d[1].value.doc);
    FlattenAppend([ArrayHead], ArrayItemsRows);
    assert Flatten([ArrayHead]) == ArrayHead;
    assert [0x04] + A + [0x00] == ArrayHead;
  }

  lemma ArraySize(d: Doc)
    requires d == ArrayDoc
    ensures Size(d) == 130
  {
    ArrayElementRow(d);
    SizeOfThree(d);
  }

  lemma ArrayOuterRows(d: Doc)
    requires d == ArrayDoc
    ensures EncodeElement(d[0]) == ArrayIdRow && EncodeElement(d[2]) == ArrayTailRow
  {
  }

  /** The rows of the array document, with the array's own rows still nested in one row. */
  lemma ArrayDocRows(d: Doc)
    requires d == ArrayDoc
    ensures Size(d) == 130
    ensures Encode(d) == Flatten([Le32(130), ArrayIdRow, Flatten([ArrayHead] + ArrayItemsRows), ArrayTailRow, [0]])
  {
    ArraySize(d);
    ArrayElementRow(d);
    ArrayOuterRows(d);
    ThreeRows(d);
  }

  lemma ArrayVector(d: Doc)
    requires d == ArrayDoc
    ensures Size(d) == 130
    ensures Encode(d) == ArrayBytes
  {
    ArrayDocRows(d);
    Le32Small(130);
    var p := [[0x82, 0x00, 0x00, 0x00], ArrayIdRow];
    var q := [ArrayTailRow, [0x00]];
    assert [Le32(130), ArrayIdRow, Flatten([ArrayHead] + ArrayItemsRows), ArrayTailRow, [0]] == p + [Flatten([ArrayHead] + ArrayItemsRows)] + q;
    FlattenSplice(p, [ArrayHead] + ArrayItemsRows, q);
  }

  lemma {:induction false} ValidElementsOf(es: seq<Element>)
    requires forall i :: 0 <= i < |es| ==> ValidName(es[i].name) && ValidValue(es[i].value)
    ensures ValidElements(es)
  {
    if es != [] {
      ValidElementsOf(es[1..]);
    }
  }

  /** The array of the array test is a valid document: unique names, each a C string. */
  lemma ArrayItemsValid(d: Doc)
    requires d == ArrayItems
    ensures ValidDoc(d)
  {
    ArrayItemsSize(d);
    forall i | 0 <= i < 8
      ensures d[i].name == [(0x30 + i) as byte] && d[i].value.Double?
    {
    }
    ValidElementsOf(d);
  }

  lemma ArrayDocValid(d: Doc)
    requires d == ArrayDoc
    ensures ValidDoc(d)
  {
    ArraySize(d);
    ArrayItemsValid(d[1].value.doc);
    ValidElementsOf(d);
  }

  /**
   * Reading the array test's bytes gives the document whose "a" is an Array of
   * the eight doubles, and writing that document reproduces the bytes.
   */
  lemma ArrayRead(b: seq<byte>)
    requires b == ArrayBytes
    ensures Decode(b) == Some(ArrayDoc)
    ensures Lookup(ArrayDoc, A) == Some(Array(ArrayItems))
    ensures Encode(Decode(b).value) == b
  {
    ArrayVector(ArrayDoc);
    ArrayDocValid(ArrayDoc);
    DecodeEncode(ArrayDoc);
  }

  // ---------------------------------------------------------------- {_id, array: ["a", "b", "c", hole, "e"]}

  /** The array stored under "array": the names "0", "1", "2" and "4"; "3" is a hole. */
  const HolesItems: Doc := [
    Element([0x30], String([0x61])), Element([0x31], String([0x62])),
    Element([0x32], String([0x63])), Element([0x34], String([0x65]))]

  const HolesItemsRows: seq<seq<byte>> := [
    [0x29, 0x00, 0x00, 0x00],
    [0x02, 0x30, 0x00, 0x02, 0x00, 0x00, 0x00, 0x61, 0x00],
    [0x02, 0x31, 0x00, 0x02, 0x00, 0x00, 0x00, 0x62, 0x00],
    [0x02, 0x32, 0x00, 0x02, 0x00, 0x00, 0x00, 0x63, 0x00],
    [0x02, 0x34, 0x00, 0x02, 0x00, 0x00, 0x00, 0x65, 0x00],
    [0x00]]

  const HolesHead: seq<byte> := [0x04, 0x61, 0x72, 0x72, 0x61, 0x79, 0x00]
  const HolesIdRow: seq<byte> := [0x07, 0x5F, 0x69, 0x64, 0x00, 0x4A, 0x79, 0xBF, 0xD5, 0x17, 0x22, 0x00, 0x00, 0x00, 0x00, 0x61, 0xD3]

  /**
   * The hex text of the holes test, "46000000075F6964004A79BFD5...", row by row:
   * the length 0x46, the "_id" row, the row that opens "array" followed by the
   * rows of the array itself, and the terminator.
   */
  const HolesRows: seq<seq<byte>> :=
    [[0x46, 0x00, 0x00, 0x00], HolesIdRow] + ([HolesHead] + HolesItemsRows) + [[0x00]]

  const HolesBytes: seq<byte> := Flatten(HolesRows)

  const HolesDoc: Doc := [Element(ID, ObjectId(OID_HOLES)), Element(ARRAY, Array(HolesItems))]

  lemma HolesItemsElementRows(d: Doc)
    requires d == HolesItems
    ensures ElementRows(d) == HolesItemsRows[1..5]
  {
    Le32Small(2);
    StringRow([0x30], [0x61]);
    assert ElementRows(d)[0] == HolesItemsRows[1];
    StringRow([0x31], [0x62]);
    assert ElementRows(d)[1] == HolesItemsRows[2];
    StringRow([0x32], [0x63]);
    assert ElementRows(d)[2] == HolesItemsRows[3];
    StringRow([0x34], [0x65]);
    assert ElementRows(d)[3] == HolesItemsRows[4];
  }

  lemma HolesItemsSize(d: Doc)
    requires d == HolesItems
    ensures Size(d) == 41
  {
    forall i | 0 <= i < 4
      ensures ElementSize(d[i]) == 9
    {
    }
    ElementsSizeUniform(d, 9);
  }

  lemma HolesItemsVector(d: Doc)
    requires d == HolesItems
    ensures Size(d) == 41
    ensures Encode(d) == Flatten(HolesItemsRows)
  {
    HolesItemsSize(d);
    EncodeRows(d);
    Le32Small(41);
    HolesItemsElementRows(d);
    assert [Le32(41)] + HolesItemsRows[1..5] + [[0]] == HolesItemsRows;
  }

  lemma HolesElementRow(d: Doc)
    requires d == HolesDoc
    ensures ElementSize(d[1]) == 48
    ensures EncodeElement(d[1]) == Flatten([HolesHead] + HolesItemsRows)
  {
    HolesItemsVector(d[1].value.doc);
    FlattenAppend([HolesHead], HolesItemsRows);
    assert Flatten([HolesHead]) == HolesHead;
    assert [0x04] + ARRAY + [0x00] == HolesHead;
  }

  lemma HolesSize(d: Doc)
    requires d == HolesDoc
    ensures Size(d) == 70
  {
    HolesElementRow(d);
    SizeOfTwo(d);
  }

  lemma HolesIdRowOf(d: Doc)
    requires d == HolesDoc
    ensures EncodeElement(d[0]) == HolesIdRow
  {
  }

  lemma HolesVector(d: Doc)
    requires d == HolesDoc
    ensures Size(d) == 70
    ensures Encode(d) == HolesBytes
  {
    HolesSize(d);
    HolesElementRow(d);
    HolesIdRowOf(d);
    TwoRows(d);
    Le32Small(70);
    var p := [[0x46, 0x00, 0x00, 0x00], HolesIdRow];
    var q: seq<seq<byte>> := [[0x00]];
    assert [Le32(70), HolesIdRow, Flatten([HolesHead] + HolesItemsRows), [0]] == p + [Flatten([HolesHead] + HolesItemsRows)] + q;
    FlattenSplice(p, [HolesHead] + HolesItemsRows, q);
  }

  lemma HolesItemsValid(d: Doc)
    requires d == HolesItems
    ensures ValidDoc(d)
  {
    HolesItemsSize(d);
    ValidElementsOf(d);
  }

  lemma HolesDocValid(d: Doc)
    requires d == HolesDoc
    ensures ValidDoc(d)
  {
    HolesSize(d);
    HolesItemsValid(d[1].value.doc);
    ValidElementsOf(d);
  }

  /**
   * Reading the holes test's bytes keeps the array's names "0", "1", "2", "4"
   * as they are (no renumbering, no "3"), and writing reproduces the bytes.
   */
  lemma HolesRead(b: seq<byte>)
    requires b == HolesBytes
    ensures Decode(b) == Some(HolesDoc)
    ensures Lookup(HolesDoc, ARRAY) == Some(Array(HolesItems))
    ensures Encode(Decode(b).value) == b
  {
    HolesVector(HolesDoc);
    HolesDocValid(HolesDoc);
    DecodeEncode(HolesDoc);
  }

  /** The names kept in the array: "0", "1", "2", "4". */
  lemma HolesNames()
    ensures |HolesItems| == 4
    ensures forall i :: 0 <= i < 4 ==> HolesItems[i].name == [[0x30], [0x31], [0x32], [0x34]][i]
    ensures !HasName(HolesItems, [0x33])
  {
  }

  // ---------------------------------------------------------------- the tests' calls, replayed

  /** Int32 elements named "lo" up to "hi - 1", each holding its own number. */
  function Numbered(lo: nat, hi: nat): (es: Doc)
    requires 1 <= lo <= hi <= 10
    ensures |es| == hi - lo
    ensures forall k :: 0 <= k < hi - lo ==> es[k] == Element(Digit(lo + k), Int32(lo + k))
  {
    seq(hi - lo, k requires 0 <= k < hi - lo => Element(Digit(lo + k), Int32(lo + k)))
  }

  /** The tests' loop `for (i = lo; i < hi; i++) doc.Add(Convert.ToString(i), element i)`, by `Add(name, element)`. */
  method AddNumberedElements(doc: BsonDocument, lo: nat, hi: nat)
    requires 1 <= lo <= hi <= 10 && doc.Valid()
    requires forall i :: lo <= i < hi ==> !HasName(doc.elements, Digit(i))
    modifies doc
    ensures doc.Valid() && doc.elements == old(doc.elements) + Numbered(lo, hi)
  {
    for i := lo to hi
      invariant doc.Valid() && doc.elements == old(doc.elements) + Numbered(lo, i)
    {
      var be := Element(Digit(i), Int32(i));
      assert !HasName(doc.elements, be.name) by {
        assert !HasName(old(doc.elements), be.name);
      }
      var added := doc.AddNamed(be.name, be);
      assert doc.elements == old(doc.elements) + Numbered(lo, i + 1);
    }
  }

  /** The same loop by `Add(name, value)`. */
  method AddNumberedValues(doc: BsonDocument, lo: nat, hi: nat)
    requires 1 <= lo <= hi <= 10 && doc.Valid()
    requires forall i :: lo <= i < hi ==> !HasName(doc.elements, Digit(i))
    modifies doc
    ensures doc.Valid() && doc.elements == old(doc.elements) + Numbered(lo, hi)
  {
    for i := lo to hi
      invariant doc.Valid() && doc.elements == old(doc.elements) + Numbered(lo, i)
    {
      assert !HasName(doc.elements, Digit(i)) by {
        assert !HasName(old(doc.elements), Digit(i));
      }
      var added := doc.Add(Digit(i), Int32(i));
      assert doc.elements == old(doc.elements) + Numbered(lo, i + 1);
    }
  }

  /** `TestAdds`: each overload of `Add` with a new name adds exactly one element. */
  method TestAdds() returns (counts: seq<nat>)
    ensures counts == [5, 6, 7]
  {
    var doc := new BsonDocument();
    AddNumberedElements(doc, 1, 6);
    counts := [doc.Count()];
    var added := doc.AddElement(Element(Digit(6), Int32(6)));
    counts := counts + [doc.Count()];
    added := doc.Add(Digit(7), Int32(7));
    counts := counts + [doc.Count()];
  }

  /** Each one-character Int32 element takes 7 bytes: type, name, NUL and four payload bytes. */
  lemma NumberedSize(lo: nat, hi: nat)
    requires 1 <= lo <= hi <= 10
    ensures ElementsSize(Numbered(lo, hi)) == 7 * (hi - lo)
  {
    ElementsSizeUniform(Numbered(lo, hi), 7);
  }

  /** The sizes `TestSize` expects: 5, 20, 55, then 24 for the sub-document and 84 with it embedded. */
  lemma TestSizeSizes(t: Element, st: Element)
    requires t == Element(TEST, String(TEST)) && st == Element(TEST, String(SUB_TEST))
    ensures Size([]) == 5 && Size([t]) == 20 && Size([t] + Numbered(1, 6)) == 55
    ensures Size([st]) == 24 && Size([t] + Numbered(1, 6) + [Element(SUB, Document([st]))]) == 84
  {
    assert ElementsSize([t]) == 15 by {
      assert [t][1..] == [];
    }
    assert ElementsSize([st]) == 19 by {
      assert [st][1..] == [];
    }
    NumberedSize(1, 6);
    ElementsSizeAppend([t], Numbered(1, 6));
    SizeAppend([t] + Numbered(1, 6), Element(SUB, Document([st])));
  }

  /** No name of the first document of `TestSize` is "sub" (so adding it succeeds). */
  lemma TestSizeNames(t: Element)
    requires t == Element(TEST, String(TEST))
    ensures !HasName([t] + Numbered(1, 6), SUB)
  {
    var d := [t] + Numbered(1, 6);
    forall i | 0 <= i < |d|
      ensures d[i].name != SUB
    {
      if i > 0 {
        assert d[i].name == Digit(i);
      }
    }
  }

  /** The first calls of `TestSize`: sizes of a fresh document, after `t`, and after five numbered elements. */
  method GrowAndMeasure(t: Element) returns (doc: BsonDocument, sizes: seq<nat>)
    requires forall i :: 1 <= i < 6 ==> t.name != Digit(i)
    ensures fresh(doc) && doc.Valid() && doc.elements == [t] + Numbered(1, 6)
    ensures sizes == [Size([]), Size([t]), Size([t] + Numbered(1, 6))]
  {
    doc := new BsonDocument();
    var empty := doc.Size();
    var added := doc.Add(t.name, t.value);
    assert doc.elements == [t];
    var one := doc.Size();
    AddNumberedValues(doc, 1, 6);
    sizes := [empty, one, doc.Size()];
  }

  /** The sub-document of `TestSize`: one element `st`, and its size. */
  method MeasureSub(st: Element) returns (sub: BsonDocument, size: nat)
    ensures fresh(sub) && sub.elements == [st] && size == Size([st])
  {
    sub := new BsonDocument();
    var added := sub.Add(st.name, st.value);
    size := sub.Size();
  }

  /**
   * The calls of `TestSize`, for any first element `t` and sub-document element
   * `st`: the size of the empty document, after `t`, after five numbered
   * elements, of the sub-document, and after embedding the sub-document.
   */
  method SizeScenario(t: Element, st: Element, sub: seq<byte>) returns (sizes: seq<nat>)
    requires forall i :: 1 <= i < 6 ==> t.name != Digit(i)
    requires !HasName([t] + Numbered(1, 6), sub)
    ensures sizes == [Size([]), Size([t]), Size([t] + Numbered(1, 6)), Size([st]),
                      Size([t] + Numbered(1, 6) + [Element(sub, Document([st]))])]
  {
    var doc, first := GrowAndMeasure(t);
    var subDoc, inner := MeasureSub(st);
    var added := doc.Add(sub, Document(subDoc.elements));
    sizes := first + [inner, doc.Size()];
  }

  /** `TestSize`: sizes grow element by element. */
  method TestSize() returns (sizes: seq<nat>)
    ensures sizes == [5, 20, 55, 24, 84]
  {
    var t := Element(TEST, String(TEST));
    var st := Element(TEST, String(SUB_TEST));
    TestSizeNames(t);
    sizes := SizeScenario(t, st, SUB);
    TestSizeSizes(t, st);
  }

  /** `TestFormatting`: the first byte of the output is the size, and the dump is exact. */
  method TestFormatting() returns (output: seq<byte>)
    ensures output == FormattingBytes && output[0] == 20
  {
    var doc := new BsonDocument();
    var added := doc.Add(TEST, String(TEST));
    assert doc.elements == FormattingDoc;
    output := doc.Write();
    FormattingVector(doc.elements);
    assert output[0] == FormattingRows[0][0];
  }

  /** `TestElements`: a chain of `Append` calls writes its elements in call order. */
  method TestElements() returns (output: seq<byte>)
    ensures output == ElementsBytes
  {
    var bdoc := new BsonDocument();
    var self, added := bdoc.Append(ID, Element(ID, ObjectId(OID_ELEMENTS)));
    self, added := self.Append(A, Element(A, Double(D1)));
    self, added := self.Append(B, Element(B, String(TEST)));
    assert bdoc.elements == ElementsDoc;
    output := bdoc.Write();
    ElementsVector(bdoc.elements);
  }

  /** `TestNumberElements`: as `TestElements`, with two doubles. */
  method TestNumberElements() returns (output: seq<byte>)
    ensures output == NumbersBytes
  {
    var bdoc := new BsonDocument();
    var self, added := bdoc.Append(ID, Element(ID, ObjectId(OID_NUMBERS)));
    self, added := self.Append(A, Element(A, Double(D1)));
    self, added := self.Append(B, Element(B, Double(D2)));
    assert bdoc.elements == NumbersDoc;
    output := bdoc.Write();
    NumbersVector(bdoc.elements);
  }

  /** What the read-back tests check of the document read from `b`: it is well formed, and its `name` is an Array. */
  predicate ReadsBackWithArray(b: seq<byte>, name: seq<byte>)
  {
    Decode(b).Some? && UniqueNames(Decode(b).value) && Encode(Decode(b).value) == b &&
    Lookup(Decode(b).value, name).Some? && Lookup(Decode(b).value, name).value.Array?
  }

  lemma ArrayReadsBack(b: seq<byte>)
    requires b == ArrayBytes
    ensures ReadsBackWithArray(b, A)
  {
    ArrayRead(b);
    ArrayDocValid(ArrayDoc);
  }

  lemma HolesReadsBack(b: seq<byte>)
    requires b == HolesBytes
    ensures ReadsBackWithArray(b, ARRAY)
  {
    HolesRead(b);
    HolesDocValid(HolesDoc);
  }

  /** The read-back tests' calls: read `input`, look `name` up, write the document again. */
  method ReadBack(input: seq<byte>, name: seq<byte>) returns (isArray: bool, output: seq<byte>)
    ensures ReadsBackWithArray(input, name) ==> isArray && output == input
  {
    var bdoc := new BsonDocument();
    var ok := bdoc.Read(input);
    if ReadsBackWithArray(input, name) {
      assert [] + Decode(input).value == Decode(input).value;
      assert ok && bdoc.elements == Decode(input).value;
    }
    var a := bdoc.Get(name);
    isArray := a.Some? && a.value.Array?;
    output := bdoc.Write();
  }

  /** `TestArrayElements`: "a" reads back as an Array, and writing reproduces the input. */
  method TestArrayElements() returns (isArray: bool, output: seq<byte>)
    ensures isArray && output == ArrayBytes
  {
    ArrayReadsBack(ArrayBytes);
    isArray, output := ReadBack(ArrayBytes, A);
  }

  /** `TestArraysWithHoles`: an array with a missing index survives reading and writing byte for byte. */
  method TestArraysWithHoles() returns (isArray: bool, output: seq<byte>)
    ensures isArray && output == HolesBytes
  {
    HolesReadsBack(HolesBytes);
    isArray, output := ReadBack(HolesBytes, ARRAY);
  }
}
