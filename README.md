# BSON documents and the query cursor of the MongoDB C# driver

This project models two parts of an early MongoDB C# driver.

**The BSON document.** A `BsonDocument` is an ordered list of named elements. It is
grown in place by `Add` (three overloads) and by the chainable `Append`. `Count` and
`Size` measure it, `Write` serialises it, and `Read` fills it from bytes. The value
kinds the driver's own tests exercise are modelled:

- double (0x01), kept as its eight payload bytes;
- string (0x02);
- embedded document (0x03);
- array (0x04);
- ObjectId (0x07);
- int32 (0x10).

A document is encoded as a little-endian int32 total size, then each element, then a
NUL byte. An element is a type byte, a NUL-terminated name and the payload. The model
defines:

- the size and the encoding;
- a decoder;
- both round trips (decode∘encode and encode∘decode);
- the `HexToBytes` helper the tests use to write byte vectors as hex text.

Every test vector of the document test suite is proved: the sizes 5/20/55/24/84, the
three hex dumps written, and the two documents read back and written byte for byte.

**The cursor.** A `Cursor` sends a query (OP_QUERY) on first enumeration, yields the
documents of each reply batch, and asks for more (OP_GET_MORE) while the server-side
cursor id is non-zero and the limit is not reached. `Dispose` kills a live server cursor.

- The connection is a class holding a script of replies, which stands in for the
  server. It also keeps a ghost log of every message sent.
- The cursor is a class whose methods change its fields as the source does.
- The enumeration loop is proved against a functional specification (`Enumerate`,
  `Loop` and `NextBatch` in `CursorSpec`). Lemmas about that specification state what
  enumeration promises:
  - which messages go out;
  - that documents are yielded in order and within the limit;
  - that the cursor id comes from the last reply;
  - how a negative limit behaves;
  - how an early stop and a dispose interact.

Modules: `Options`, `Bytes`, `Bson` (values, size, encoding), `BsonDecode` (decoder and
round trips), `Hex`, `BsonDocuments` (the mutable document), `BsonVectors` (the test
vectors), `CursorSpec` (the cursor as values) and `Cursors` (the connection and cursor
classes).

## Model

Source paths: `TestBsonDocument.cs` means `MongoDB.Net-Tests/Bson/TestBsonDocument.cs`,
and `Cursor.cs` means `MongoDBDriver/Cursor.cs`.

| member | source | states |
|---|---|---|
| Bytes.Pow256 | MongoDB.Net-Tests/Bson/TestBsonDocument.cs:67 | 256^n is at least 1 |
| Bytes.LeBytes | MongoDB.Net-Tests/Bson/TestBsonDocument.cs:67 | n little-endian bytes of a value |
| Bytes.LeValue | MongoDB.Net-Tests/Bson/TestBsonDocument.cs:67 | the value of little-endian bytes is below 256^n |
| Bytes.LeValueOfLeBytes | MongoDB.Net-Tests/Bson/TestBsonDocument.cs:67 | reading n little-endian bytes gives back the value written |
| Bytes.LeBytesOfLeValue | MongoDB.Net-Tests/Bson/TestBsonDocument.cs:127-142 | writing the value of n bytes gives those bytes back |
| Bytes.Le32 | MongoDB.Net-Tests/Bson/TestBsonDocument.cs:67 | an int32 is written as four bytes |
| Bytes.Int32Of | MongoDB.Net-Tests/Bson/TestBsonDocument.cs:67 | four little-endian bytes read as a two's-complement int32 (how the leading size is read) |
| Bytes.Int32RoundTrip | MongoDB.Net-Tests/Bson/TestBsonDocument.cs:67 | reading the four bytes written for an int32 gives the int32 back (so the leading size is readable) |
| Bytes.BytesRoundTrip | MongoDB.Net-Tests/Bson/TestBsonDocument.cs:127-142 | any four bytes are the encoding of the int32 they hold, so a size prefix that was read is rewritten unchanged |
| Bytes.Ascii | MongoDB.Net-Tests/Bson/TestBsonDocument.cs:39 | an ASCII string's bytes are its characters' codes, one byte each |
| BsonVectors.NamesAreAscii | MongoDB.Net-Tests/Bson/TestBsonDocument.cs:39-49 | the names and strings in the vectors ("_id", "a", "b", "test", "sub", "sub test", "array", the digits) are the ASCII bytes of the tests' string literals |
| Bson.TypeCode | MongoDB.Net-Tests/Bson/TestBsonDocument.cs:92 | the type byte of each value kind: 0x01 double, 0x02 string, 0x03 document, 0x04 array, 0x07 ObjectId, 0x10 int32 |
| Bson.PayloadSize | MongoDB.Net-Tests/Bson/TestBsonDocument.cs:36-51 | the bytes of a payload: 8 for a double, 4 + length + 1 for a string, Size for a document or array, 12 for an ObjectId, 4 for an int32 |
| Bson.ElementSize | MongoDB.Net-Tests/Bson/TestBsonDocument.cs:39-40 | type byte, name, NUL and payload |
| Bson.ElementsSize | MongoDB.Net-Tests/Bson/TestBsonDocument.cs:41-44 | the elements' sizes summed |
| Bson.Size | MongoDB.Net-Tests/Bson/TestBsonDocument.cs:36-51 | the length prefix, the elements and the terminator: 4 + elements + 1, what `Size` reports |
| Bson.EncodeValue | MongoDB.Net-Tests/Bson/TestBsonDocument.cs:68 | a payload's bytes: a string as its int32 length (terminator counted), its bytes and NUL; a document or array as its encoding; an int32 little-endian |
| Bson.EncodeElement | MongoDB.Net-Tests/Bson/TestBsonDocument.cs:68 | an element's bytes: type byte, name, NUL, payload |
| Bson.EncodeElements | MongoDB.Net-Tests/Bson/TestBsonDocument.cs:92 | the elements' bytes one after another, in insertion order |
| Bson.Encode | MongoDB.Net-Tests/Bson/TestBsonDocument.cs:61-68 | what Write produces: Size as an int32, the elements, a NUL |
| Bson.HasName | MongoDB.Net-Tests/Bson/TestBsonDocument.cs:133 | some element carries the name |
| Bson.UniqueNames | MongoDB.Net-Tests/Bson/TestBsonDocument.cs:19-33 | no name occurs twice, which the Add overloads keep |
| Bson.ValidName | MongoDB.Net-Tests/Bson/TestBsonDocument.cs:127-132 | a name holds no NUL, so it reads back as a C string |
| Bson.ValidValue | MongoDB.Net-Tests/Bson/TestBsonDocument.cs:127-132 | a string's length fits an int32, and embedded documents and arrays are well formed |
| Bson.ValidElements | MongoDB.Net-Tests/Bson/TestBsonDocument.cs:127-132 | every element has a valid name and value |
| Bson.ValidDoc | MongoDB.Net-Tests/Bson/TestBsonDocument.cs:127-132 | a document the writer emits so that it reads back: Size fits an int32, names are unique, elements are valid |
| Bson.ElementsSizeAppend | MongoDB.Net-Tests/Bson/TestBsonDocument.cs:39-49 | the size of the elements grows by exactly the new element's size |
| Bson.SizeAppend | MongoDB.Net-Tests/Bson/TestBsonDocument.cs:36-51 | adding an element grows the document's Size by that element's encoded size |
| Bson.EncodeValueLength | MongoDB.Net-Tests/Bson/TestBsonDocument.cs:36-51 | a payload is written in exactly its counted number of bytes |
| Bson.EncodeElementsLength | MongoDB.Net-Tests/Bson/TestBsonDocument.cs:36-51 | elements are written in exactly their counted number of bytes |
| Bson.EncodeLength | MongoDB.Net-Tests/Bson/TestBsonDocument.cs:36-51 | Size is exactly the number of bytes Write produces |
| Bson.EncodeFraming | MongoDB.Net-Tests/Bson/TestBsonDocument.cs:67 | the encoding starts with Size as an int32 and ends with a NUL byte |
| Bson.EncodeElementsAppend | MongoDB.Net-Tests/Bson/TestBsonDocument.cs:79-82 | elements are written in insertion order, each as its own bytes |
| Bson.Lookup | MongoDB.Net-Tests/Bson/TestBsonDocument.cs:133 | `bdoc[name]` finds a value iff the name is present, and the value found is stored under that name |
| BsonDecode.CString | MongoDB.Net-Tests/Bson/TestBsonDocument.cs:127-132 | a name is the bytes before the first NUL, which hold no NUL; without a NUL there is no name |
| BsonDecode.CStringOfName | MongoDB.Net-Tests/Bson/TestBsonDocument.cs:127-142 | a NUL-free name written with its terminator reads back exactly |
| BsonDecode.ParseDoc | MongoDB.Net-Tests/Bson/TestBsonDocument.cs:127-132 | a parsed document takes at least 5 bytes and no more than the input holds |
| BsonDecode.ParseElement | MongoDB.Net-Tests/Bson/TestBsonDocument.cs:127-132 | a parsed element takes at least one byte and no more than the input holds |
| BsonDecode.ParseValue | MongoDB.Net-Tests/Bson/TestBsonDocument.cs:127-132 | a parsed payload takes no more than the input holds |
| BsonDecode.ParseElements | MongoDB.Net-Tests/Bson/TestBsonDocument.cs:127-132 | elements read one after another until the bytes given are used up exactly |
| BsonDecode.Decode | MongoDB.Net-Tests/Bson/TestBsonDocument.cs:127-132 | what Read accepts: one well-formed document filling the input exactly |
| BsonDecode.ParseValueOfEncode | MongoDB.Net-Tests/Bson/TestBsonDocument.cs:127-142 | a written payload parses back to the same value, whatever follows it |
| BsonDecode.ParseElementOfEncode | MongoDB.Net-Tests/Bson/TestBsonDocument.cs:127-142 | a written element parses back to the same element, whatever follows it |
| BsonDecode.ParseElementsOfEncode | MongoDB.Net-Tests/Bson/TestBsonDocument.cs:127-142 | written elements parse back to the same list |
| BsonDecode.ParseDocOfEncode | MongoDB.Net-Tests/Bson/TestBsonDocument.cs:127-142 | a written document parses back to the same document |
| BsonDecode.DecodeEncode | MongoDB.Net-Tests/Bson/TestBsonDocument.cs:127-142 | reading what Write produced gives the document back |
| BsonDecode.EncodeOfParseValue | MongoDB.Net-Tests/Bson/TestBsonDocument.cs:139-142 | re-writing a parsed payload reproduces the bytes it was parsed from |
| BsonDecode.EncodeOfParseElement | MongoDB.Net-Tests/Bson/TestBsonDocument.cs:139-142 | re-writing a parsed element reproduces its bytes |
| BsonDecode.EncodeOfParseElements | MongoDB.Net-Tests/Bson/TestBsonDocument.cs:139-142 | re-writing parsed elements reproduces their bytes |
| BsonDecode.EncodeOfParseDoc | MongoDB.Net-Tests/Bson/TestBsonDocument.cs:139-142 | re-writing a parsed document reproduces its bytes |
| BsonDecode.EncodeDecode | MongoDB.Net-Tests/Bson/TestBsonDocument.cs:127-142 | writing what was read reproduces the input byte for byte |
| BsonDecode.DecodeIsInverse | MongoDB.Net-Tests/Bson/TestBsonDocument.cs:127-165 | the decoder accepts exactly the encodings of well-formed documents, and returns the document encoded |
| BsonDocuments.BsonDocument.constructor | MongoDB.Net-Tests/Bson/TestBsonDocument.cs:20 | a new document is empty |
| BsonDocuments.BsonDocument.Valid | MongoDB.Net-Tests/Bson/TestBsonDocument.cs:19-33 | the document's invariant: every name occurs once |
| BsonDocuments.BsonDocument.Count | MongoDB.Net-Tests/Bson/TestBsonDocument.cs:25-31 | the number of elements, as the Adds test reads it |
| BsonDocuments.BsonDocument.Size | MongoDB.Net-Tests/Bson/TestBsonDocument.cs:36-51 | Size is the length of what Write produces, and at least 5 |
| BsonDocuments.BsonDocument.Get | MongoDB.Net-Tests/Bson/TestBsonDocument.cs:133 | a value is found iff the name is present, and it is stored under that name |
| BsonDocuments.BsonDocument.Add | MongoDB.Net-Tests/Bson/TestBsonDocument.cs:30 | a new name is appended at the end and Count grows by one; a name already held is refused and nothing changes |
| BsonDocuments.BsonDocument.AddElement | MongoDB.Net-Tests/Bson/TestBsonDocument.cs:27 | the element is appended under its own name, under the same refusal rule |
| BsonDocuments.BsonDocument.AddNamed | MongoDB.Net-Tests/Bson/TestBsonDocument.cs:22-23 | the element's value is appended under the given name, under the same refusal rule |
| BsonDocuments.BsonDocument.Append | MongoDB.Net-Tests/Bson/TestBsonDocument.cs:79-81 | as AddNamed, and it returns the document itself so calls chain |
| BsonDocuments.BsonDocument.Write | MongoDB.Net-Tests/Bson/TestBsonDocument.cs:61-67 | the output is the encoding; its length is Size; for a well-formed document its leading int32 is Size and it decodes back to the document |
| BsonDocuments.BsonDocument.Read | MongoDB.Net-Tests/Bson/TestBsonDocument.cs:127-132 | the decoded elements are appended iff the bytes are one well-formed document with no name clash; otherwise nothing changes; an empty document that reads bytes writes them back |
| Hex.HexDigit | MongoDB.Net-Tests/Bson/TestBsonDocument.cs:178 | a hex digit of either case has a value below 16 |
| Hex.PairByte | MongoDB.Net-Tests/Bson/TestBsonDocument.cs:177-183 | `Convert.ToByte(pair, 16)` on two hex digits, and 0 for a pair it cannot parse |
| Hex.Padded | MongoDB.Net-Tests/Bson/TestBsonDocument.cs:170-173 | the padded string has even length |
| Hex.HexDecode | MongoDB.Net-Tests/Bson/TestBsonDocument.cs:174-175 | one byte per pair of hex digits, counting the padding |
| Hex.HexToBytes | MongoDB.Net-Tests/Bson/TestBsonDocument.cs:168-186 | a fresh array, filled by the pair-by-pair loop, that equals HexDecode of the string |
| Hex.DigitChar | MongoDB.Net-Tests/Bson/TestBsonDocument.cs:65 | the digit written for a value reads back as that value |
| Hex.HexEncode | MongoDB.Net-Tests/Bson/TestBsonDocument.cs:65-66 | a dump has two characters per byte |
| Hex.HexEncodeAt | MongoDB.Net-Tests/Bson/TestBsonDocument.cs:65-66 | byte k occupies characters 2k and 2k+1 of the dump, high digit first |
| Hex.PairOfDigits | MongoDB.Net-Tests/Bson/TestBsonDocument.cs:178 | the two digits written for a byte parse back as that byte |
| Hex.HexDecodeEncode | MongoDB.Net-Tests/Bson/TestBsonDocument.cs:139-142 | HexToBytes of a dump gives the bytes back, in upper or lower case |
| Hex.UnparsablePairIsZero | MongoDB.Net-Tests/Bson/TestBsonDocument.cs:177-183 | a pair that is not two hex digits becomes byte 0 |
| Hex.OddLengthPadding | MongoDB.Net-Tests/Bson/TestBsonDocument.cs:170-173 | an odd-length string reads as the string with a leading '0' |
| BsonVectors.FlattenAppend | MongoDB.Net-Tests/Bson/TestBsonDocument.cs:121-125 | joining the rows of two row lists is joining their joins |
| BsonVectors.FlattenSplice | MongoDB.Net-Tests/Bson/TestBsonDocument.cs:121-125 | an embedded document's rows can be spliced into the outer rows |
| BsonVectors.ElementRows | MongoDB.Net-Tests/Bson/TestBsonDocument.cs:92 | one row per element, holding that element's bytes |
| BsonVectors.EncodeElementsRows | MongoDB.Net-Tests/Bson/TestBsonDocument.cs:92 | the elements' bytes are their rows joined |
| BsonVectors.EncodeRows | MongoDB.Net-Tests/Bson/TestBsonDocument.cs:92 | a document's bytes are its size row, its element rows and the NUL |
| BsonVectors.ThreeRows | MongoDB.Net-Tests/Bson/TestBsonDocument.cs:92 | the rows of a three-element document |
| BsonVectors.TwoRows | MongoDB.Net-Tests/Bson/TestBsonDocument.cs:148 | the rows of a two-element document |
| BsonVectors.SizeOfTwo | MongoDB.Net-Tests/Bson/TestBsonDocument.cs:148 | the size of a two-element document |
| BsonVectors.SizeOfThree | MongoDB.Net-Tests/Bson/TestBsonDocument.cs:92 | the size of a three-element document |
| BsonVectors.Le32Small | MongoDB.Net-Tests/Bson/TestBsonDocument.cs:67 | a size below 256 is written as that byte and three zeros |
| BsonVectors.DoubleRow | MongoDB.Net-Tests/Bson/TestBsonDocument.cs:92 | the bytes of a double element |
| BsonVectors.StringRow | MongoDB.Net-Tests/Bson/TestBsonDocument.cs:68 | the bytes of a string element, with the length that counts the terminator |
| BsonVectors.Digit | MongoDB.Net-Tests/Bson/TestBsonDocument.cs:22 | `Convert.ToString(i)` for a single digit is that one character |
| BsonVectors.EmptyDocumentVector | MongoDB.Net-Tests/Bson/TestBsonDocument.cs:37-38 | the empty document has size 5 and dumps as five bytes |
| BsonVectors.FormattingSizeOf | MongoDB.Net-Tests/Bson/TestBsonDocument.cs:67 | {test: "test"} has size 20 |
| BsonVectors.FormattingRowsOf | MongoDB.Net-Tests/Bson/TestBsonDocument.cs:68 | the element row of {test: "test"} is as dumped |
| BsonVectors.FormattingVector | MongoDB.Net-Tests/Bson/TestBsonDocument.cs:67-68 | {test: "test"} is written as the expected dump |
| BsonVectors.ElementsSizeOf | MongoDB.Net-Tests/Bson/TestBsonDocument.cs:92 | the ObjectId/double/string document has size 45 |
| BsonVectors.ElementsRowsOf | MongoDB.Net-Tests/Bson/TestBsonDocument.cs:92 | its three element rows are as dumped |
| BsonVectors.ElementsVector | MongoDB.Net-Tests/Bson/TestBsonDocument.cs:92-93 | it is written as the expected dump |
| BsonVectors.NumbersSizeOf | MongoDB.Net-Tests/Bson/TestBsonDocument.cs:116 | the ObjectId/double/double document has size 44 |
| BsonVectors.NumbersRowsOf | MongoDB.Net-Tests/Bson/TestBsonDocument.cs:116 | its three element rows are as dumped |
| BsonVectors.NumbersVector | MongoDB.Net-Tests/Bson/TestBsonDocument.cs:116 | it is written as the expected dump |
| BsonVectors.ElementsSizeUniform | MongoDB.Net-Tests/Bson/TestBsonDocument.cs:121-125 | elements of equal size k take k times their count |
| BsonVectors.ArrayItemsElementRows | MongoDB.Net-Tests/Bson/TestBsonDocument.cs:121-125 | the eight array items' rows are as in the hex |
| BsonVectors.ArrayItemsSize | MongoDB.Net-Tests/Bson/TestBsonDocument.cs:121-125 | the array's inner document has size 93 |
| BsonVectors.ArrayItemsVector | MongoDB.Net-Tests/Bson/TestBsonDocument.cs:121-125 | the array's inner document is written as in the hex |
| BsonVectors.ArrayElementRow | MongoDB.Net-Tests/Bson/TestBsonDocument.cs:121-125 | the array element has size 96 and is written as in the hex |
| BsonVectors.ArraySize | MongoDB.Net-Tests/Bson/TestBsonDocument.cs:121 | the array test's document has size 130 (0x82) |
| BsonVectors.ArrayOuterRows | MongoDB.Net-Tests/Bson/TestBsonDocument.cs:121-125 | its ObjectId and string rows are as in the hex |
| BsonVectors.ArrayDocRows | MongoDB.Net-Tests/Bson/TestBsonDocument.cs:121-125 | its rows, with the array's rows nested |
| BsonVectors.ArrayVector | MongoDB.Net-Tests/Bson/TestBsonDocument.cs:121-125 | the array test's document is written as the hex |
| BsonVectors.ValidElementsOf | MongoDB.Net-Tests/Bson/TestBsonDocument.cs:121-125 | elements with well-formed names and values are well formed |
| BsonVectors.ArrayItemsValid | MongoDB.Net-Tests/Bson/TestBsonDocument.cs:121-125 | the array's items "0" to "7" form a well-formed document |
| BsonVectors.ArrayDocValid | MongoDB.Net-Tests/Bson/TestBsonDocument.cs:121-125 | the array test's document is well formed |
| BsonVectors.ArrayRead | MongoDB.Net-Tests/Bson/TestBsonDocument.cs:127-142 | the hex decodes to the document, "a" is an Array, and re-writing gives the hex back |
| BsonVectors.HolesItemsElementRows | MongoDB.Net-Tests/Bson/TestBsonDocument.cs:147-150 | the four array items' rows are as in the hex |
| BsonVectors.HolesItemsSize | MongoDB.Net-Tests/Bson/TestBsonDocument.cs:149 | the array with a hole has size 41 (0x29) |
| BsonVectors.HolesItemsVector | MongoDB.Net-Tests/Bson/TestBsonDocument.cs:147-150 | the array with a hole is written as in the hex |
| BsonVectors.HolesElementRow | MongoDB.Net-Tests/Bson/TestBsonDocument.cs:147-150 | the "array" element has size 48 and is written as in the hex |
| BsonVectors.HolesSize | MongoDB.Net-Tests/Bson/TestBsonDocument.cs:148 | the holes test's document has size 70 (0x46) |
| BsonVectors.HolesIdRowOf | MongoDB.Net-Tests/Bson/TestBsonDocument.cs:148 | its ObjectId row is as in the hex |
| BsonVectors.HolesVector | MongoDB.Net-Tests/Bson/TestBsonDocument.cs:147-150 | the holes test's document is written as the hex |
| BsonVectors.HolesItemsValid | MongoDB.Net-Tests/Bson/TestBsonDocument.cs:147-150 | the items "0", "1", "2", "4" form a well-formed document |
| BsonVectors.HolesDocValid | MongoDB.Net-Tests/Bson/TestBsonDocument.cs:147-150 | the holes test's document is well formed |
| BsonVectors.HolesRead | MongoDB.Net-Tests/Bson/TestBsonDocument.cs:151-165 | the hex decodes to the document, "array" is an Array, and re-writing gives the hex back |
| BsonVectors.HolesNames | MongoDB.Net-Tests/Bson/TestBsonDocument.cs:149-150 | the array's indices are 0, 1, 2, 4: index 3 is missing |
| BsonVectors.Numbered | MongoDB.Net-Tests/Bson/TestBsonDocument.cs:21-24 | the elements "i": i for i from lo below hi |
| BsonVectors.AddNumberedElements | MongoDB.Net-Tests/Bson/TestBsonDocument.cs:21-24 | the loop of `Add(be.Name, be)` appends the numbered elements in order |
| BsonVectors.AddNumberedValues | MongoDB.Net-Tests/Bson/TestBsonDocument.cs:41-43 | the loop of `Add(name, value)` appends the numbered elements in order |
| BsonVectors.TestAdds | MongoDB.Net-Tests/Bson/TestBsonDocument.cs:19-33 | Count is 5, then 6, then 7 |
| BsonVectors.NumberedSize | MongoDB.Net-Tests/Bson/TestBsonDocument.cs:41-44 | each numbered int32 element takes 7 bytes |
| BsonVectors.TestSizeSizes | MongoDB.Net-Tests/Bson/TestBsonDocument.cs:36-51 | the five documents measured have sizes 5, 20, 55, 24, 84 |
| BsonVectors.TestSizeNames | MongoDB.Net-Tests/Bson/TestBsonDocument.cs:49 | "sub" is not yet a name when it is added |
| BsonVectors.GrowAndMeasure | MongoDB.Net-Tests/Bson/TestBsonDocument.cs:37-44 | the document grown by the test, and its size at each step |
| BsonVectors.MeasureSub | MongoDB.Net-Tests/Bson/TestBsonDocument.cs:46-48 | the sub-document and its size |
| BsonVectors.SizeScenario | MongoDB.Net-Tests/Bson/TestBsonDocument.cs:36-51 | the sizes measured are the sizes of the documents built |
| BsonVectors.TestSize | MongoDB.Net-Tests/Bson/TestBsonDocument.cs:36-51 | the sizes measured are 5, 20, 55, 24, 84 |
| BsonVectors.TestFormatting | MongoDB.Net-Tests/Bson/TestBsonDocument.cs:54-69 | the output is the expected dump, and its first byte is 20 |
| BsonVectors.TestElements | MongoDB.Net-Tests/Bson/TestBsonDocument.cs:72-94 | the chained Appends and Write give the expected dump |
| BsonVectors.TestNumberElements | MongoDB.Net-Tests/Bson/TestBsonDocument.cs:97-117 | the chained Appends and Write give the expected dump |
| BsonVectors.ArrayReadsBack | MongoDB.Net-Tests/Bson/TestBsonDocument.cs:120-143 | the array test's bytes decode, "a" is an Array, and they re-encode to themselves |
| BsonVectors.HolesReadsBack | MongoDB.Net-Tests/Bson/TestBsonDocument.cs:146-166 | the holes test's bytes decode, "array" is an Array, and they re-encode to themselves |
| BsonVectors.ReadBack | MongoDB.Net-Tests/Bson/TestBsonDocument.cs:127-142 | read, look up, write: the value is an Array and the output equals the input, whenever the input reads back |
| BsonVectors.TestArrayElements | MongoDB.Net-Tests/Bson/TestBsonDocument.cs:120-143 | "a" is an Array and the output equals the input |
| BsonVectors.TestArraysWithHoles | MongoDB.Net-Tests/Bson/TestBsonDocument.cs:146-166 | "array" is an Array and the output equals the input |
| CursorSpec.NewCursor | MongoDBDriver/Cursor.cs:66-81 | id -1, no reply and no sort; a null selector becomes the empty document; limit, skip and fields are kept as given |
| CursorSpec.QueryMessage | MongoDBDriver/Cursor.cs:123-135 | an OP_QUERY carrying the collection, skip, limit, effective query and field selector |
| CursorSpec.EffectiveQuery | MongoDBDriver/Cursor.cs:125-131 | the query document: the selector, or {query: selector, orderby: order} once sorted |
| CursorSpec.Wrap32 | MongoDBDriver/Cursor.cs:145 | C# int arithmetic wraps, and leaves in-range values alone |
| CursorSpec.NormalizedLimit | MongoDBDriver/Cursor.cs:145 | a negative limit is multiplied by -1 with int32 wrap; others stay |
| CursorSpec.AfterQuery | MongoDBDriver/Cursor.cs:143-145 | after the query's reply: the reply is held, the id is its cursor id, the limit is normalised |
| CursorSpec.AfterGetMore | MongoDBDriver/Cursor.cs:151-152 | after a get-more's reply: the reply is held and the id is its cursor id |
| CursorSpec.UnderLimit | MongoDBDriver/Cursor.cs:102 | the loop may yield while the limit is 0 or the count is below it |
| CursorSpec.Wants | MongoDBDriver/Cursor.cs:104 | the consumer still pulls after count documents (the lazy iterator's consumer) |
| CursorSpec.Loop | MongoDBDriver/Cursor.cs:100-109 | the pass over a batch: at the limit it breaks off without a request; otherwise it yields each document, stopping when the consumer stops |
| CursorSpec.NextBatch | MongoDBDriver/Cursor.cs:110-118 | at the end of a batch: with id 0 the enumeration ends; otherwise an OP_GET_MORE goes out, and its reply's batch is walked, or a null batch ends it |
| CursorSpec.Run | MongoDBDriver/Cursor.cs:97-119 | the held reply's batch walked from a count of 0 |
| CursorSpec.Enumerate | MongoDBDriver/Cursor.cs:92-121 | one enumeration: the query first when no reply is held, then the held batch and later batches |
| CursorSpec.DisposeSent | MongoDBDriver/Cursor.cs:157-159 | Dispose sends one OP_KILL_CURSORS for a non-zero id, nothing for id 0 |
| CursorSpec.AfterDispose | MongoDBDriver/Cursor.cs:156-161 | a disposed cursor has id 0 |
| CursorSpec.NormalizedLimitIsAbs | MongoDBDriver/Cursor.cs:145 | a negative limit becomes its absolute value, except int.MinValue, which stays itself |
| CursorSpec.SortedQueryShape | MongoDBDriver/Cursor.cs:123-135 | once sorted, the query sent is {query: selector, orderby: order} |
| CursorSpec.UnsortedQueryIsSpec | MongoDBDriver/Cursor.cs:125 | unsorted, the query sent is the selector itself |
| CursorSpec.DocsAppend | MongoDBDriver/Cursor.cs:98-112 | the documents of a run of replies are the documents of each reply, in order |
| CursorSpec.LoopSends | MongoDBDriver/Cursor.cs:100-119 | the loop sends only OP_GET_MOREs, one per reply it consumes, each for the collection, the current id and the limit |
| CursorSpec.NextSends | MongoDBDriver/Cursor.cs:110-118 | the same, from the point where a batch is exhausted |
| CursorSpec.LoopOrder | MongoDBDriver/Cursor.cs:100-119 | the documents yielded are a prefix of the documents of the batches consumed, in order |
| CursorSpec.NextOrder | MongoDBDriver/Cursor.cs:110-119 | the same, from the point where a batch is exhausted |
| CursorSpec.LoopLimit | MongoDBDriver/Cursor.cs:102-108 | with a non-zero limit, at most limit documents are yielded in all |
| CursorSpec.NextLimit | MongoDBDriver/Cursor.cs:102-118 | the same, from the point where a batch is exhausted |
| CursorSpec.LoopWant | MongoDBDriver/Cursor.cs:104 | a consumer that stops after k documents receives at most k |
| CursorSpec.NextWant | MongoDBDriver/Cursor.cs:104-118 | the same, from the point where a batch is exhausted |
| CursorSpec.LoopFull | MongoDBDriver/Cursor.cs:101-109 | with no limit, or a positive limit the batch stays within, and a consumer that wants more than the batch, the whole batch is yielded in order and the loop goes on as at the end of a batch |
| CursorSpec.GetMoreAfterFullBatch | MongoDBDriver/Cursor.cs:110-118 | after a batch that exactly reaches the limit, a live cursor still sends an OP_GET_MORE, but yields nothing more |
| CursorSpec.EnumerateSends | MongoDBDriver/Cursor.cs:92-121 | enumeration sends the query first, only if no reply is held, and OP_GET_MOREs after it, for the collection and a live id; after a query each OP_GET_MORE carries the normalised limit, and from a held reply the limit as it stands; without a fault, get-mores stop only when the id is 0, a batch is null, the limit is reached or the consumer has what it wants |
| CursorSpec.EnumerateId | MongoDBDriver/Cursor.cs:144-152 | after enumeration that consumed replies, the cursor holds the last reply consumed and its cursor id; one that consumed none leaves the cursor unchanged; the other query fields do not change; a held reply stays held, and one is held after any query that got a reply, so the query is never sent twice |
| CursorSpec.RunOrder | MongoDBDriver/Cursor.cs:98-119 | documents come from the held batch and the later replies, in order |
| CursorSpec.EnumerateOrder | MongoDBDriver/Cursor.cs:92-121 | the documents yielded are a prefix of the documents of all replies consumed, in order; with limit 0, an unbounded consumer and no fault, they are all of them, and the replies consumed run on until the id is 0 or a batch is null |
| CursorSpec.LoopEnds | MongoDBDriver/Cursor.cs:100-119 | from a held reply, the loop faults only when a get-more finds no reply with the id live, and otherwise ends only at id 0, a null batch, the limit reached or a satisfied consumer, so get-mores go on until one of these |
| CursorSpec.NextEnds | MongoDBDriver/Cursor.cs:110-118 | the same from the end of a batch |
| CursorSpec.EnumerateEnds | MongoDBDriver/Cursor.cs:92-121 | a consumer taking nothing sends and changes nothing; an enumeration faults only on a missing reply or a null held batch, and otherwise ends only at id 0, a null batch, the limit in force reached or a satisfied consumer |
| CursorSpec.RunLimitKept | MongoDBDriver/Cursor.cs:98-119 | the loop does not change the limit |
| CursorSpec.EnumerateBounds | MongoDBDriver/Cursor.cs:97-119 | never more documents than the consumer asks for; with a positive limit in force afterwards, never more than it; with a limit still negative, none |
| CursorSpec.NegativeLimitSingleBatch | MongoDBDriver/Cursor.cs:137-146 | with limit -5 and a closed cursor, the query carries -5, the first five documents are yielded, the limit becomes 5 and the id 0, and a later Dispose sends nothing |
| CursorSpec.LoopStopsAtWant | MongoDBDriver/Cursor.cs:101-104 | a consumer that stops within the batch, no later than a positive limit allows (or with no limit), gets exactly the documents up to there and nothing is sent |
| CursorSpec.LoopBreaksAtLimit | MongoDBDriver/Cursor.cs:102-108 | a batch longer than a positive limit still allows yields exactly the allowed documents and breaks off with nothing sent, live id or not |
| CursorSpec.FirstBatchBreaksAtLimit | MongoDBDriver/Cursor.cs:92-109 | a first reply whose batch exceeds the normalised positive limit yields exactly that many documents, and the query is the only message sent |
| CursorSpec.EarlyStop | MongoDBDriver/Cursor.cs:92-109 | stopping after k documents of the first reply, with k within the normalised limit (or no limit), yields exactly those k and sends only the query; Dispose then kills the cursor iff the reply's id is non-zero |
| CursorSpec.DisposeIdempotent | MongoDBDriver/Cursor.cs:156-161 | a second Dispose sends nothing and changes nothing |
| CursorSpec.DisposeSendsIffLive | MongoDBDriver/Cursor.cs:156-161 | Dispose sends OP_KILL_CURSORS for the id iff the id is non-zero |
| Cursors.Connection.constructor | MongoDBDriver/Cursor.cs:13 | a connection with the given replies to come and nothing sent |
| Cursors.Connection.SendTwoWayMessage | MongoDBDriver/Cursor.cs:143-151 | the message is logged; the next reply is taken, or none when the server has none left |
| Cursors.Connection.SendMessage | MongoDBDriver/Cursor.cs:159 | the message is logged and no reply is taken |
| Cursors.Prepend | MongoDBDriver/Cursor.cs:101-104 | proof helper for the loop: documents yielded earlier come before those yielded later |
| Cursors.PrependTwice | MongoDBDriver/Cursor.cs:101-104 | proof helper for the loop: yielding two runs one after the other yields their concatenation |
| Cursors.ResumesPrepend | MongoDBDriver/Cursor.cs:101-104 | proof helper for the loop: a cursor resumed after yielding a batch's documents reaches the same outcome |
| Cursors.LastBatch | MongoDBDriver/Cursor.cs:110-117 | proof helper for the loop: a closed or stopped cursor ends the enumeration as specified |
| Cursors.GetMoreStep | MongoDBDriver/Cursor.cs:110-115 | proof helper for the loop: an OP_GET_MORE and its reply carry the enumeration on as specified |
| Cursors.Cursor.State | MongoDBDriver/Cursor.cs:13-64 | the cursor's fields (collection, selector, fields, sort, limit, skip, id, held reply) as one value |
| Cursors.Cursor.constructor | MongoDBDriver/Cursor.cs:66-81 | the cursor's state is NewCursor of the arguments, and nothing is sent |
| Cursors.Cursor.Sort | MongoDBDriver/Cursor.cs:83-90 | a null order is refused and changes nothing; otherwise it becomes the sort order and nothing else changes |
| Cursors.Cursor.BuildQueryMessage | MongoDBDriver/Cursor.cs:123-135 | the message built is QueryMessage of the cursor's state |
| Cursors.Cursor.RetrieveData | MongoDBDriver/Cursor.cs:137-146 | exactly the query is sent; the reply and its id are taken in and a negative limit is negated; without a reply nothing else changes |
| Cursors.Cursor.RetrieveMoreData | MongoDBDriver/Cursor.cs:148-153 | exactly one OP_GET_MORE for the collection, id and limit is sent, and the reply and its id are taken in |
| Cursors.Cursor.Documents | MongoDBDriver/Cursor.cs:92-121 | the cursor's new state, the replies consumed, the messages sent and the documents yielded are those Enumerate specifies |
| Cursors.Cursor.Walk | MongoDBDriver/Cursor.cs:97-119 | the batch loop with its OP_GET_MOREs reaches the outcome Loop specifies |
| Cursors.Cursor.WalkBatch | MongoDBDriver/Cursor.cs:101-109 | the pass over one batch yields the documents Loop specifies, and says whether the limit or the consumer stopped it |
| Cursors.Cursor.Dispose | MongoDBDriver/Cursor.cs:156-161 | the state becomes AfterDispose; OP_KILL_CURSORS is sent iff the id was non-zero; no reply is consumed |
| Cursors.NegativeLimitScenario | MongoDBDriver/Cursor.cs:92-121 | a cursor with limit -5 over a closed five-document reply yields the five documents and sends the one query carrying -5 |
| Cursors.EarlyDisposeScenario | MongoDBDriver/Cursor.cs:156-161 | taking two documents and disposing twice sends the query and a single OP_KILL_CURSORS for the live id |

## Left out

- BsonWriter, BsonReader, BsonElement and the BSON value classes are not part of this
  model. Their behaviour is inferred from the tests' byte vectors:
  - a name already present is refused by `Add`, which leaves the document as it was;
  - `Read` either takes a whole well-formed document or changes nothing.
- Names and strings are byte sequences. UTF-8 encoding of non-ASCII text is not modelled.
- A double is kept as its eight payload bytes. Floating point is not modelled, and the
  array test's fifth item keeps the bytes its hex gives.
- BSON types other than double, string, document, array, ObjectId and int32 are left
  out. The tests do not use them.
- The test vectors are written as byte rows in the model. `Hex.HexDecodeEncode` proves
  that reading a dump gives its bytes back, but the hex literals themselves are not run
  through `HexToBytes`.
- BsonDocuments.BsonDocument.AddNamed and BsonDocuments.BsonDocument.Append store the
  element's value under the `name` argument and drop the element's own name. The
  BsonElement class is not part of this model, so when the two names differ the source
  does not show which one is written. The tests always pass equal names.
- BsonDecode.Decode, and so BsonDocuments.BsonDocument.Read, accepts exactly one document
  filling the whole input. Bytes after the terminating NUL are refused. A stream reader
  would stop at the terminator and leave them unread. `BsonDecode.ParseDoc` gives that
  prefix reading, but `Read` does not use it.
- BsonVectors.SizeScenario adds the sub-document as a value: `doc.Add("sub", sub)` stores
  a copy, while C# stores a reference. A later change to `sub` would show in `doc` in
  C#, but not in the model. The test changes nothing after the add.
- Hex.HexToBytes: `Convert.ToByte(pair, 16)` is modelled for pairs of hex digits only.
  Any other pair reads as 0. Sign and prefix forms that the .NET parser might accept
  in a pair are not modelled.
- The console warning printed for odd-length hex is left out (I/O).
- The connection is a script of replies, and wire framing is not modelled. A missing
  reply stands for an exception from the transport. `Documents` then reports a fault,
  and so does a first reply with a null batch, where the source would throw
  `NullReferenceException`.
- `BsonConvert.From` and `ToNative` are the identity: the documents sent and yielded are
  BSON values.
- The `FullCollectionName`, `CollName`, `Spec`, `Limit`, `Skip` and `Fields` setters and
  the `Modifiable` flag are left out. The cursor's collection, limit and skip are kept as
  cursor fields rather than in a separately held query message object.
- `_Special` and `_OrderBy` are merged into one optional sort order.
- The C# iterator is lazy. The model runs it eagerly, up to a bound the consumer gives
  (`want`). A consumer that abandons the enumeration is a consumer with that bound.
- The `docsReturned` counter is unbounded. A C# `int` could only overflow after 2^31
  documents.
- Cursors.Cursor.Dispose on a cursor that never queried (id -1) sends OP_KILL_CURSORS
  for -1, as the source does. The model reproduces this and does not treat it as an
  error.
- MongoDBDriver/Collection.cs and MongoDBDriver/Database.cs, which create cursors, are
  not part of this model.
