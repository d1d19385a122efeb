# HVJson in Dafny

A model of the JSON encoder and decoder in `hvjson/`, with proofs of what its several
implementations promise about each other.

* **One meaning.** `Values` holds JSON trees and `Print`, the text of a tree at an indentation level.
  `Reflection` says which tree `encodeValue` prints for a value that may contain pointers, or which
  error it stops with; `Cycles` relates that to the reachable graph, and `Mixture` does so for values
  on which compiled code and the cycle detector take turns. `Routes` says for both which descent
  decides the error, and what a growing depth limit does to it. `Encoder` is the encoder object with
  its buffer, threshold flushing, depth and two-tier cycle detector, proved against `Reflection`.
* **The type compiler.** `Compiler` compares the closures of the fast path, in defunctionalised
  form, with the reflective interpreter and the hybrid for addressable structs; `FastEncoder` is
  all three working on the encoder object.
* **Two parsers.** `Parsing` specifies the decoder and its parallel skip functions over bytes and
  positions, `Utf8` the validation before it, `Decoder` is the object with cursor and depth counter;
  `SkipAgreement`, `SkipPanics`, `DepthLimit`, `RoundTrip`, `MapRoundTrip` and `Targets` hold the
  theorems. `Grammar` proves that the decoder accepts exactly the JSON grammar, with `Escapes`,
  `Literals` and `Numerals` for the spellings of strings and numbers. `FieldTables` builds the name
  tables.
* **The shape of documents.** `Layout` says where white space stands in a printed document, byte by
  byte, and `SafeText` which bytes never stand there.
* **The incremental writer.** `WriterSpec` is the write state machine without a stream, `Writer` the
  object over the flushing encoder, `WriterRuns` its whole runs, `WriterBrackets` and `Scanning` the
  bracket invariant and the erasure of insignificant white space (section 2 of RFC 8259).
* **Stream framing.** `StreamScan` is the stream decoder's scanner on one window, `Framing` what a
  sequence of reads is cut into, `StreamAgreement` compares the scanner with the decoder, `Streaming`
  is the encoder and decoder objects.
* **The build-once caches.** `Cache` is the once protocol as a step system over threads with call
  stacks, `CacheSafety` what every interleaving keeps, `CacheLiveness` deadlock freedom and
  termination.

Functions of the vector library (white space, quote and delimiter search, unescaping, integer
formatting and parsing) are ordinary functions with the meaning their call sites need: `SkipSpace`,
`FindQuote`, `FindDelimiter`, `Unescape` (section 7 of RFC 8259, lone surrogates being errors),
`Decimal`, `ParseInt`, `ValidUtf8` (section 4 of RFC 3629). Writers take a slice whole or fail taking
nothing, by an arbitrary predicate on the number of the call; readers are the list of what their
reads return. What texts parse to as floating point numbers, how names fold, and which capacity an
append picks are parameters. A run-time panic is a result like an error (`IndexPanic`,
`BufferOverrun`, `Panicked`).

Where the code differs from what one expects of it:

* `formatInt64Fast` leaves a lone `-` for -2^63 (`Integers.FastTextExact`); `encodeInt` does not use it.
* The cycle detector compares addresses only, so acyclic values with interior pointers are refused
  (`Cycles.InteriorPointerIsRefused`, `Compiler.ZeroSizeNeighbour`), and once the inline slots are
  full it only searches the map, so a ring of eight or more pointers is gone round twice
  (`Cycles.RingIsNoticed`). What is accepted is exactly `Cycles.AcyclicEncodesIff`,
  `Cycles.EncodeExact`, `Compiler.InterpExact`, `Routes.MixedExact`.
* A cyclic value need not end in a cycle error: a slice that holds itself crosses no pointer
  (`Routes.SliceInItself`), and compiled code records none (`Routes.DetectorIsBypassed`). A cycle is
  reported exactly when a route ends at a pointer that clashes with those recorded on it, fits the
  limit, and has only encoded parts to its left (`Routes.CycleReportedIff`,
  `Routes.MixedCycleReportedIff`). `Routes.CyclicFate` and `Routes.MixedCyclicFate` say which cyclic
  values are too deep under every limit and which end in one error under all large ones.
* Compiled code tests the depth inside a container, the interpreter before every value
  (`Compiler.SameUnderOneLimit`).
* The skip functions accept less than the decoder before certain bytes
  (`SkipAgreement.SkipAgrees`) and index out of range on data that stops where a key has to come
  (`SkipPanics.SkipPanicsExactly`), and so do struct and fixed-array targets
  (`SkipPanics.StructPanicsExactly`, `SkipPanics.FixedPanicsExactly`). The open brackets of the data
  do not decide this, because the skipper takes any bytes up to a delimiter for a number.
* The decoder takes any run of the bytes that numbers are made of for a number, which the library may
  still refuse, and control bytes inside literals as they are. Otherwise it accepts exactly the
  grammar (`Grammar.DecoderExact`).
* Escaping without the HTML option slices the buffer past its capacity when what is left of it is
  too little and the whole would be enough (`Encoding.Encoder.EncodeString`). `MarshalIndent`
  (hvjson/api.go:207-215) runs without that option; with a stream it never happens.
* `IncrementalStreamEncoder.Encode` does not check its last flush, and succeeds although the document
  is lost when that alone fails (`Writing.IncrementalStreamEncoder.Encode`,
  `WriterRuns.LostDocument`). After Write* calls it drops what they left in the buffer.
* A document with a string that is not UTF-8 is encoded, and refused by the decoder
  (`RoundTrip.EncodeDecode`).
* The stream decoder loses an integer other than zero that ends a read, if the next read does not
  take it on with a dot or an exponent: the call fails (`Framing.IntegerAtEndOfRead`,
  `Streaming.StreamDecoder.Decode`, `Streaming.LosesInteger`).
* The peak of the buffer is max(T, 2T-2) with HTML escaping; 2T-2 alone fails for T = 1
  (`Encoding.PeakReached`).
* Building the encoder of a type that contains itself never finishes
  (`CacheLiveness.SelfContainedNeverReturns`); threads that do not ask for such types are not held up
  by it (`CacheLiveness.FineCallsComplete`).

## Model

| member | source | states |
|---|---|---|
| Integers.DigitsValue | hvjson/encoder.go:534-555 | The digits of a natural number are canonical (no leading zero) and have that number as positional value |
| Integers.CanonicalUnique | hvjson/encoder.go:534-555 | A canonical digit string is the text of its value: there is no second one |
| Integers.ParseDecimal | hvjson/decoder.go:478-523 | Parsing the decimal text of an integer gives it back exactly when it is an int64, the least included, and fails otherwise |
| Integers.DecimalInjective | hvjson/encoder.go:516-529 | Two integers never print alike |
| Integers.FillDigits | hvjson/encoder.go:541-546 | The reverse digit loop leaves exactly the digits of the number at the end of the 20-byte buffer and never underruns it |
| Integers.Shift | hvjson/encoder.go:549-554 | The shift moves the filled tail to the front and returns its length |
| Integers.FormatUint64Fast | hvjson/encoder.go:534-555 | For every uint64 the in-place formatter leaves its decimal text in buf[0..n) |
| Integers.FormatInt64Fast | hvjson/encoder.go:482-513 | What the signed in-place formatter leaves for every int64, including the overflow of negating the least one |
| Integers.FastTextExact | hvjson/encoder.go:482-513 | That is the decimal text, and parses back, exactly when the integer is not -2^63 (for which it is a lone minus sign) |
| Strings.EscapePlain | hvjson/encoder.go:627-631 | A string without special bytes is its own escape, so the fast path and the escaping loop agree |
| Strings.EscapeIsSafe | hvjson/encoder.go:669-717 | No byte of an escaped string is below 0x20, and with HTML escaping none is 0x3C, 0x3E or 0x26 |
| Strings.EscapeIsSame | hvjson/encoder.go:597-631 | A string is its own escape exactly when it has no byte below 0x20, no quotation mark, backslash or slash, and with HTML escaping none of 0x3C, 0x3E and 0x26 |
| Strings.ShortestEscape | hvjson/encoder.go:669-717 | Any other byte is escaped in the shortest way: in two bytes when a letter stands for it, else in six with digits in lower case |
| Strings.EscapeConcat | hvjson/encoder.go:669-717 | Escaping works byte by byte: it distributes over concatenation |
| Strings.FindClosingQuote | hvjson/decoder.go:399-429 | After an escaped string the scan for the closing quote stops exactly at its quote, whatever follows |
| Strings.UnescapeEscape | hvjson/decoder.go:399-429 | Unescaping recovers every escaped string, with and without HTML escaping |
| Strings.UnescapeRaw | hvjson/decoder.go:420-428 | Contents without a backslash unescape to themselves |
| Escapes.PointRoundTrip | hvjson/decoder.go:44-55 | A code point outside the surrogates is encoded as one well-formed character, whose payload bits are the code point |
| Escapes.ValidIsEncoded | hvjson/decoder.go:44-55 | The texts that pass the validation are exactly the concatenations of encoded code points outside the surrogates |
| Escapes.UnescapeWritten | hvjson/decoder.go:399-429 | However a string is written, byte by byte, with two-character escapes, or with code points in hexadecimal of either case and surrogate pairs, unescaping gives what was meant |
| Escapes.UnescapeExact | hvjson/decoder.go:399-429 | And nothing else is unescaped: contents mean a string exactly when they are one of these ways of writing it |
| Literals.LiteralIsRead | hvjson/decoder.go:399-429 | A literal is read as a string, up to its end, exactly when it is a way of writing that string between quotation marks, whatever follows |
| Utf8.EscapeKeeps | hvjson/encoder.go:641-717 | Escaping keeps well-formed UTF-8 and does not produce it |
| Utf8.PrintIsUtf8 | hvjson/decoder.go:44-55 | A printed tree passes the validation exactly when all its strings and keys are well-formed UTF-8 |
| SafeText.PrintNoHtml | hvjson/encoder.go:586-717 | With HTML escaping a whole document has no 0x3C, 0x3E or 0x26, whatever its strings and keys are, if numbers, prefix and indent have none |
| SafeText.LiteralsAreSober | hvjson/encoder.go:586-717 | No control byte stands inside a literal of a document |
| Encoding.NeedsEscape | hvjson/encoder.go:597-625 | The fast path is left exactly when some byte needs escaping, for short and long strings |
| Reflection.EncodeOk | hvjson/encoder.go:319-382 | What encodeValue accepts under a depth limit is a JSON tree that fits the limit |
| Reflection.EncodeTree | hvjson/encoder.go:319-382 | A JSON tree that fits the depth limit is encoded as itself |
| Reflection.FreeShrinks | hvjson/encoder.go:334-358 | Entering a pointer uses up a free inline slot or an address that was not in the map: the measure by which encoding ends on cyclic heaps |
| Cycles.SuccessIsAcyclic | hvjson/encoder.go:319-360 | If encodeValue succeeds, the value reachable through its pointers is finite, and what it prints is its unfolding |
| Cycles.CycleErrorIsRepeat | hvjson/encoder.go:337-357 | A cycle error is raised only for an address that was entered before on the current path |
| Cycles.OverflowIsTail | hvjson/encoder.go:337-357 | The map holds exactly the addresses entered from the ninth on: once the inline slots are full, their eight addresses are no longer recognised |
| Cycles.RingIsNoticed | hvjson/encoder.go:337-357 | A ring of n pointers is refused at its first pointer when n < 8; from n = 8 on it is gone round once unnoticed and refused at the ninth step repeated, with exactly that address |
| Cycles.AcyclicEncodesIff | hvjson/encoder.go:319-382 | A finite value within the limit is encoded exactly when no descent into it meets the two-tier address test |
| Cycles.InteriorPointerIsRefused | hvjson/encoder.go:335-344 | A value that is not cyclic and is refused: the detector compares addresses only |
| Cycles.NoFalseAlarm | hvjson/encoder.go:334-358 | Without two references at one address, shared but acyclic values never get a cycle error |
| Cycles.EncodeExact | hvjson/encoder.go:319-382 | Without two references at one address, encodeValue accepts exactly the acyclic values within the depth limit |
| Mixture.MixedSuccessIsAcyclic | hvjson/fast.go:94-99 | However compiled code, which records no pointers, and the detector take turns through interfaces and addressable structs: success means a finite value, printed as its unfolding |
| Mixture.MixedNoFalseAlarm | hvjson/encoder.go:732-742 | In that mixture acyclic memory without two references at one address gets no cycle error, and what is printed is its unfolding |
| Routes.Law | hvjson/encoder.go:319-382 | encodeValue and compiled code both go down in one way: the depth test, the value itself, then its parts in order, with the pointers recorded by reflection only |
| Routes.StopsIff | hvjson/encoder.go:319-382 | They stop with an error exactly when a route into the value meets it and nothing above it or to its left is at fault |
| Routes.SucceedsIff | hvjson/encoder.go:319-382 | They succeed exactly when no route is at fault, on cyclic heaps and with interior pointers too |
| Routes.ClearIff | hvjson/encoder.go:319-382 | For a route that fits the limit, nothing to its left is at fault exactly when every part to its left is encoded |
| Routes.CycleReportedIff | hvjson/encoder.go:329-360 | A cycle error at an address, by reflection alone: exactly when a route ends at a pointer that clashes with the recorded ones, fits the limit, and all to its left is encoded |
| Routes.MixedCycleReportedIff | hvjson/encoder.go:732-742 | The same where reflection and compiled code take turns: on a route only the pointers that reflection crossed are recorded, and only reflection looks |
| Routes.LargerLimit | hvjson/encoder.go:322-327 | Raising the depth limit changes no result but the depth error |
| Routes.SettlesIff | hvjson/encoder.go:322-327 | Another error is reported from some limit on exactly when a route meets it first under some limit |
| Routes.CyclicFate | hvjson/encoder.go:322-360 | A value without a finite unfolding, by reflection alone: refused as too deep under every limit, exactly when no route meets another error first, or refused for one and the same reason from some limit on; when that is a cycle error |
| Routes.MixedCyclicFate | hvjson/encoder.go:732-742 | The same in the mixture |
| Routes.MixedExact | hvjson/encoder.go:732-742 | In the mixture acyclic memory without two references at one address is encoded to its unfolding exactly when every route fits the limit and no cell lacks its type |
| Routes.SliceInItself | hvjson/encoder.go:329-360 | A slice that holds itself is never reported as a cycle, from any depth and under any limit: only pointers are recorded |
| Routes.KnotNeverEnds | hvjson/fast.go:94-99 | No route into the knot of a struct, an interface, a slice and a pointer back ever ends, because compiled code passes the pointer |
| Routes.DetectorIsBypassed | hvjson/encoder.go:732-742 | So by the theorem only the depth limit stops it, whatever the limit; on this value reflection alone reports the cycle |
| Encoding.Encoder.WriteByte | hvjson/encoder.go:146-153 | A byte is appended to sent plus buffered output, for every threshold, flush and failure; the buffer is below the threshold afterwards, and reaches the writer only at the threshold |
| Encoding.Encoder.WriteBytes | hvjson/encoder.go:156-172 | The same for a slice, which may go to the writer directly |
| Encoding.Encoder.FlushToStream | hvjson/encoder.go:181-202 | One call with the whole buffer, or none without a buffer or after a failure; it succeeds exactly when the writer accepts it, and the output does not change |
| Encoding.PeakReached | hvjson/encoder.go:146-172 | The bound max(T, 2T-2) on the buffer is reached for every threshold T, so 2T-2 alone is wrong for T = 1 |
| Encoding.NoneRefused | hvjson/encoder.go:176-202 | A writer has refused none of its first calls exactly when it accepts each of them |
| Encoding.Encoder.WriteNewlineIndent | hvjson/encoder.go:211-250 | Line feed, prefix and as many indents as the level says, from the tables or the loop |
| Encoding.TableEntry | hvjson/encoder.go:211-250 | A precomputed indent is the repeated indent string at that level |
| Encoding.IndentTableIsRepeat | hvjson/encoder.go:35-57 | The indent tables hold repeated indents |
| Encoding.Encoder.EncodeInt | hvjson/encoder.go:516-529 | Table entries and formatted integers are the same decimal text |
| Encoding.Encoder.EncodeString | hvjson/encoder.go:586-665 | The quoted, escaped string is appended, or the call panics: exactly when HTML escaping is off, there is no stream, the string needs escapes and, after the quote, their length exceeds the room left but not the whole capacity |
| Encoding.Encoder.EncodeStringWithHTMLEscape | hvjson/encoder.go:669-717 | The escaping loop appends the escape of the whole string and the closing quote |
| Encoding.Encoder.EncodeStringPlainEscape | hvjson/encoder.go:641-665 | The one-go escape appends the same bytes, with or without an early flush, and panics exactly when cap-len < n <= cap without a stream |
| Encoding.MarshalText | hvjson/api.go:85-102 | Marshal of a string without HTML escaping panics exactly when its escapes are as long as the scratch space (256 bytes) and the string is not plain |
| Encoding.EscapedQuotes | hvjson/encoder.go:641-665 | Such strings exist: the escape of n quotation marks has length 2n |
| Encoding.Encoder.EnterPointer | hvjson/encoder.go:334-358 | A pointer is entered exactly when the tier in use does not hold its address, and is recorded there |
| Encoding.Encoder.LeavePointer | hvjson/encoder.go:346-356 | The deferred undo restores inline count and map |
| Encoding.Encoder.EncodeValue | hvjson/encoder.go:319-382 | Terminates on every heap; appends the text of the decided tree or returns its error; depth and cycle detector are restored on every exit, the indentation on success; a panic needs a string to escape, HTML escaping off and no stream |
| Encoding.Encoder.EncodePointer | hvjson/encoder.go:329-360 | The pointer case, with the detector restored on every exit |
| Encoding.Encoder.EncodeSlice | hvjson/encoder.go:904-938 | Array text at every level, depth restored on every exit |
| Encoding.Encoder.EncodeElements | hvjson/encoder.go:920-929 | The element loop: elements in order, separated and indented |
| Encoding.Encoder.EncodeMap | hvjson/encoder.go:848-902 | Object text for any key order, depth restored on every exit |
| Encoding.Encoder.EncodeEntries | hvjson/encoder.go:857-898 | The member loop: keys and values in order, separated and indented |
| Encoding.Encoder.Encode | hvjson/encoder.go:262-317 | The scalar fast paths and the general path print the same document |
| Compiler.CompiledFits | hvjson/fast.go:52-101 | Compiled code expects exactly the memory of its type |
| Compiler.RunExact | hvjson/fast.go:52-101 | Compiled code prints the document of the value exactly when the limit leaves the room it needs, else a depth error |
| Compiler.RunFieldsExact | hvjson/fast.go:104-175 | The same for struct fields, with the hybrid loop agreeing with the compiled one |
| Compiler.InterpExact | hvjson/encoder.go:319-382 | The interpreter prints the same document exactly when there is room and no address repeats on its route |
| Compiler.NeedsCompare | hvjson/fast.go:128-133 | The interpreter needs no more room than compiled code and at most one level less |
| Compiler.CompiledThenInterpreted | hvjson/fast.go:104-175 | Where compiled code succeeds the interpreter prints the same under the same limit exactly when no address repeats |
| Compiler.InterpretedThenCompiled | hvjson/fast.go:258-348 | Where the interpreter succeeds compiled code prints the same under a limit one higher |
| Compiler.SameUnderOneLimit | hvjson/fast.go:306-321 | Under one limit they differ exactly when compiled code needs a level more and the limit lies there |
| Compiler.LaidNoRepeat | hvjson/encoder.go:732-742 | On memory in which views of one address start with one another, no address repeats: structs hand over to compiled code |
| Compiler.CompilerCorrect | hvjson/fast.go:52-101 | Compiler correctness for every finite type and value, in both directions |
| Compiler.ZeroSizeNeighbour | hvjson/encoder.go:334-344 | Compiled code prints a value that the interpreter refuses, when a pointer shares its address with its target |
| FastEncoding.EncodedNameExact | hvjson/cache.go:111-115 | A pre-encoded name is a proper key exactly when it has no byte to escape |
| FastEncoding.RunCode | hvjson/fast.go:52-101 | A compiled closure appends the document that the specification decides, or returns its error, with depth restored |
| FastEncoding.RunSlice | hvjson/fast.go:258-348 | The slice closure: depth test inside, brackets, elements |
| FastEncoding.RunStruct | hvjson/fast.go:128-174 | The struct closure: depth test inside, braces, fields |
| FastEncoding.RunFieldLoop | hvjson/fast.go:138-171 | Fields in order without the omitted ones; indentation steps down at the first one printed |
| FastEncoding.InterpValue | hvjson/encoder.go:319-382 | The reflective interpreter on typed memory appends the document that the specification decides |
| FastEncoding.InterpStruct | hvjson/encoder.go:732-794 | An addressable struct goes to the hybrid, another is interpreted field by field |
| FastEncoding.EncodeStructUnsafe | hvjson/encoder.go:796-846 | The hybrid: compiled code for every field, depth stepped once |
| FastEncoding.FastMarshal | hvjson/fast.go:374-413 | FastMarshal returns the text of the compiled code's tree or its error; a panic needs a string to escape and HTML escaping off |
| FastEncoding.ReflectMarshal | hvjson/encoder.go:298-316 | The reflective path returns the text of the interpreter's tree or its error, under the same reservation |
| Decoding.Decoder.Decode | hvjson/decoder.go:38-59 | Decoding a document: validation first, then the specified value and position or error |
| Decoding.Decoder.DecodeValue | hvjson/decoder.go:65-90 | Terminates on all bytes, stays inside the data, advances on success, restores the depth on every exit, and builds the specified value |
| Decoding.Decoder.DecodeObject | hvjson/decoder.go:92-122 | The nesting test comes first, the depth counter is restored |
| Decoding.Decoder.DecodeMap | hvjson/decoder.go:124-184 | The map holds the last value of every key |
| Decoding.Decoder.DecodeStruct | hvjson/decoder.go:186-251 | Known fields are stored, unknown ones skipped or refused, as specified |
| Decoding.Decoder.DecodeSlice | hvjson/decoder.go:285-331 | All elements in order |
| Decoding.Decoder.DecodeArrayFixed | hvjson/decoder.go:333-377 | As many elements as there are slots, the others skipped |
| Decoding.Decoder.DecodeString | hvjson/decoder.go:399-429 | Raw or unescaped contents, position after the closing quote |
| Decoding.Decoder.DecodeNumber | hvjson/decoder.go:478-541 | The run of number bytes, as integer, number text, whole float converted under UseInt64, or error |
| Decoding.Decoder.SkipAny | hvjson/decoder.go:551-574 | The skipper stops where the specification says, on all bytes |
| Decoding.Decoder.SkipAnyObject | hvjson/decoder.go:576-614 | Members are passed without being built |
| Decoding.Decoder.SkipAnyLiteral | hvjson/decoder.go:662-680 | A literal is the whole run of letters |
| Decoding.Decoder.SkipAnyNumber | hvjson/decoder.go:682-689 | A number ends at the next delimiter or the end of the data |
| SkipAgreement.SkipAgrees | hvjson/decoder.go:551-689 | When decoding succeeds, skipping ends at the same place exactly if a number is followed by a delimiter and a literal by no letter |
| SkipAgreement.ValueAgrees | hvjson/decoder.go:551-574 | In particular before every delimiter and at the end of the input |
| SkipAgreement.SkipPanicsOnTruncatedObject | hvjson/decoder.go:647-660 | On an object cut off before a key the skipper indexes out of range while the decoder reports an error |
| SkipPanics.PanicEndsAtKey | hvjson/decoder.go:576-614 | The skipper panics only on data whose last significant byte is an opening brace or a comma |
| SkipPanics.SkipPanicsExactly | hvjson/decoder.go:576-660 | It panics exactly on data that a member with an empty key and closing brackets, the first of an object, complete to a value it passes: it has passed everything so far and misses a key |
| SkipPanics.ValueBefore | hvjson/decoder.go:551-689 | Data that goes on with an empty key, and is passed beyond it, panics when it stops before the key |
| SkipPanics.ValueStays | hvjson/decoder.go:551-574 | A value that ends before the data does is passed the same whatever is appended |
| SkipPanics.BraceInNumber | hvjson/decoder.go:682-689 | The last byte alone does not decide: a malformed number takes an opening brace with it |
| SkipPanics.StructPanicsExactly | hvjson/decoder.go:186-251 | Decoding into a struct panics exactly when it comes to a member that no field takes, is not refused, and whose value the skipper panics on |
| SkipPanics.FixedPanicsExactly | hvjson/decoder.go:333-377 | Decoding into a fixed array panics exactly when it comes to an element without a slot on which the skipper panics |
| RoundTrip.ValueRoundTrip | hvjson/decoder.go:65-90 | A printed tree is decoded to itself at any place of any document, consuming exactly its bytes |
| RoundTrip.StringRoundTrip | hvjson/decoder.go:399-429 | A quoted string is read back |
| RoundTrip.IntegerKeyRoundTrip | hvjson/encoder.go:870-880 | The text of an integer map key is read back as a string that parses to that integer |
| Numerals.NumeralIsRead | hvjson/decoder.go:478-541 | Every number of the grammar is read whole, and becomes its text under UseNumber, an integer without fraction and exponent, and otherwise a float, or an integer under UseInt64 if the float is whole |
| Grammar.DocIsRead | hvjson/decoder.go:38-541 | Every text of the JSON grammar is decoded to what it means, wherever it stands: white space at every place it may stand, every spelling of strings and numbers, within the depth limit, if its numbers can be represented |
| Grammar.ReadIsDoc | hvjson/decoder.go:38-541 | And whatever is decoded is such a text with white space before it: nothing else is accepted, except that any run of number bytes may stand for a number and that literals may hold control bytes |
| Grammar.DecoderExact | hvjson/decoder.go:65-90 | So the decoder accepts exactly the grammar: a value and an end are the result exactly when a text of the grammar with that meaning stands up to that end |
| RoundTrip.EncodeDecode | hvjson/decoder.go:38-59 | Whatever encodeValue prints under a limit, compact or indented with white space, is decoded under the same limit to the printed tree, unless it is validated and has a string that is not UTF-8, when it is refused |
| RoundTrip.PrintInjective | hvjson/encoder.go:319-382 | Two trees with the same text are the same tree |
| MapRoundTrip.ListingMeans | hvjson/decoder.go:124-184 | Whatever order maps are printed in, at every level, the meaning is the same |
| MapRoundTrip.AnyOrderRoundTrip | hvjson/encoder.go:848-902 | Any listing of a value, printed and decoded into interface{}, gives the value back, with the same exception |
| DepthLimit.LimitExact | hvjson/decoder.go:92-97 | Under any other limit the document is decoded to the same tree when its containers fit and refused with a stack overflow otherwise |
| DepthLimit.NestingBounded | hvjson/decoder.go:92-97 | Decoded values never nest beyond the limit |
| Targets.OrderIsForgotten | hvjson/decoder.go:124-184 | A decoded map does not depend on the order of distinct members |
| Targets.StructIsProjection | hvjson/decoder.go:186-251 | Where decodeMap succeeds, decodeStruct succeeds at the same position and projects the members onto the fields |
| Targets.LastMemberWins | hvjson/decoder.go:217-236 | Every field holds the last member that resolves to it, or what it held before |
| Targets.FixedIsPrefix | hvjson/decoder.go:333-377 | decodeArrayFixed ends where decodeSlice does and holds its prefix |
| FieldTables.SplitJoin | hvjson/cache.go:95-105 | Splitting a tag loses nothing and leaves no comma in a part |
| FieldTables.TagInfo | hvjson/cache.go:84-109 | Name and omitempty of a field from its tag; an empty name means the Go name |
| FieldTables.TagMeans | hvjson/cache.go:95-109 | A tag written as name and options means that name, or the Go name if it is empty, and omitempty wherever it stands among the options |
| FieldTables.InfosList | hvjson/cache.go:78-118 | The table has an entry for exactly the exported fields whose tag is not a lone dash, in declaration order, each with the name and option its tag means |
| FieldTables.BuildFieldsCache | hvjson/cache.go:71-123 | The list is that table; both name maps are the maps from every name to the last field that has it |
| FieldTables.ResolveIsLast | hvjson/decoder.go:217-228 | A member name selects the last field of exactly that name, else the last whose folded name matches, else none |
| Scanning.PrintPiece | hvjson/encoder.go:848-938 | A printed value has balanced brackets and whole literals, and its significant bytes are its compact text |
| Scanning.IndentationIsMeaningFree | hvjson/encoder.go:211-250 | Erasing white space outside literals from the indented text gives the compact text, at every level |
| Layout.DocumentLaidOut | hvjson/encoder.go:211-250 | Between any two neighbouring bytes of a document outside literals stands exactly this white space: a line feed, prefix and an indent for every open bracket where a line begins; a space behind a colon; else nothing; and nothing at all in compact mode |
| Layout.LineFeeds | hvjson/encoder.go:224-249 | Outside literals a line feed stands behind commas and behind brackets that do not close at once, before closing brackets that have something before them, and nowhere else; behind it prefix, as many indents as brackets are open, one less before a closing one, and then no white space |
| Layout.DrivenIsLaidOut | hvjson/streaming.go:233-412 | What the Write* calls append for a document, in any run of documents, is laid out by the same rule, and balanced |
| WriterSpec.DriveEqualsPrint | hvjson/streaming.go:260-600 | Driving the Write* calls with a tree appends exactly what encodeValue prints for it, compact and indented |
| WriterSpec.ArrayOfContainers | hvjson/streaming.go:620-637 | In compact mode an array of containers, driven call by call with WriteMore between its elements, appends the text of the array |
| WriterSpec.NestingLimit | hvjson/streaming.go:261-285 | 64 containers can be open at a time; starting one more is refused |
| WriterSpec.DocumentsAreLines | hvjson/streaming.go:201-213 | Completed documents are separated by single line feeds and nothing else |
| WriterSpec.RunVerdictSnoc | hvjson/streaming.go:261-637 | The error of a run is the first one and stays |
| WriterBrackets.StepBalanced | hvjson/streaming.go:261-412 | Every call keeps the bracket invariant |
| WriterBrackets.RunBalanced | hvjson/streaming.go:261-412 | In every run the open brackets outside literals are exactly the frames on the write stack |
| Writing.IncrementalStreamEncoder.constructor | hvjson/streaming.go:109-121 | A non-positive threshold means the default |
| Writing.IncrementalStreamEncoder.EnsureWriteSession | hvjson/streaming.go:201-229 | The session is bound once; between documents one line feed is written |
| Writing.IncrementalStreamEncoder.WriteArrayComma | hvjson/streaming.go:233-258 | Line break before the first element, separator before the others, nothing in an object |
| Writing.IncrementalStreamEncoder.WriteObjectStart | hvjson/streaming.go:261-285 | One step of the write machine, with the machine's verdict as its result when no write has failed; an error is final and nothing is written after it |
| Writing.IncrementalStreamEncoder.WriteObjectEnd | hvjson/streaming.go:288-317 | One step of the write machine, with the machine's verdict as its result when no write has failed; an error is final and nothing is written after it |
| Writing.IncrementalStreamEncoder.WriteArrayStart | hvjson/streaming.go:320-344 | One step of the write machine, with the machine's verdict as its result when no write has failed; an error is final and nothing is written after it |
| Writing.IncrementalStreamEncoder.WriteArrayEnd | hvjson/streaming.go:347-376 | One step of the write machine, with the machine's verdict as its result when no write has failed; an error is final and nothing is written after it |
| Writing.IncrementalStreamEncoder.WriteObjectField | hvjson/streaming.go:380-412 | One step of the write machine, with the machine's verdict as its result when no write has failed; an error is final and nothing is written after it |
| Writing.IncrementalStreamEncoder.WriteText | hvjson/streaming.go:415-436 | One step of the write machine, with the machine's verdict as its result when no write has failed; an error is final and nothing is written after it |
| Writing.IncrementalStreamEncoder.WriteInteger | hvjson/streaming.go:439-484 | One step of the write machine, with the machine's verdict as its result when no write has failed; an error is final and nothing is written after it |
| Writing.IncrementalStreamEncoder.WriteNumber | hvjson/streaming.go:487-532 | One step of the write machine, with the machine's verdict as its result when no write has failed; an error is final and nothing is written after it |
| Writing.IncrementalStreamEncoder.WriteBoolean | hvjson/streaming.go:535-553 | One step of the write machine, with the machine's verdict as its result when no write has failed; an error is final and nothing is written after it |
| Writing.IncrementalStreamEncoder.WriteNil | hvjson/streaming.go:556-575 | One step of the write machine, with the machine's verdict as its result when no write has failed; an error is final and nothing is written after it |
| Writing.IncrementalStreamEncoder.WriteAny | hvjson/streaming.go:578-602 | One step of the write machine; the result is that of encoding the value when no write has failed, and an encoding error ends the run |
| Writing.IncrementalStreamEncoder.WriteComma | hvjson/streaming.go:623-637 | One step of the write machine, with the machine's verdict as its result when no write has failed; an error is final and nothing is written after it |
| Writing.IncrementalStreamEncoder.FlushNow | hvjson/streaming.go:640-651 | Flushing changes no output; it makes one call if anything is buffered and succeeds exactly when that is accepted, and then everything has been sent |
| Writing.IncrementalStreamEncoder.Encode | hvjson/streaming.go:130-178 | A whole document and a line feed: the encoding error, or the outcome of the line feed alone; the last flush is not checked, and when it alone is refused the call succeeds with the document cut short. Below the threshold these are exactly two writes |
| Writing.IncrementalStreamEncoder.Promises | hvjson/streaming.go:92-105 | While no error is set, sent plus buffered bytes are exactly the output without a bound, the buffer is below the threshold and within the peak bound; sent bytes are a prefix in every case; nothing is written after a failure; there is an error exactly when a call was refused or a write has failed |
| WriterRuns.Session | hvjson/streaming.go:92-105 | The same over every sequence of calls, every threshold and every pattern of failing writes; without a failing write the error is that of the first call the machine refuses, and there is none if it refuses none |
| WriterRuns.LostDocument | hvjson/streaming.go:168-178 | A writer that refuses its first call only: Encode succeeds and nothing but the line feed has been written |
| WriterRuns.SessionIsBalanced | hvjson/streaming.go:92-105 | While nothing has failed the brackets in sent plus buffered bytes match the write stack, and indentation level equals write depth |
| StreamScan.ScanPrinted | hvjson/streaming.go:788-1066 | The stream scanner stops exactly at the end of a printed value, floats included, whatever follows |
| StreamScan.ScanNumeral | hvjson/streaming.go:990-1066 | Every number of the grammar, with or without fraction and exponent, is scanned to its end when a byte that belongs to no number follows |
| StreamScan.ScanDecimal | hvjson/streaming.go:990-1066 | An integer followed by a byte that ends it is scanned exactly |
| StreamAgreement.ScannerAgrees | hvjson/streaming.go:788-1066 | The stream scanner finds the end of every value that the decoder accepts, in any spelling, if its numbers are of the grammar and a number at the top does not end the window |
| StreamScan.ScanLastInteger | hvjson/streaming.go:1003-1015 | An integer at the end of the window is cut there and read on, unless it is zero |
| Framing.AlignedReadsAreCut | hvjson/streaming.go:693-736 | Reads that end after whole values are cut into exactly those values, in order, and then the end of input |
| Framing.LinesAreCut | hvjson/streaming.go:51-74 | Stream encoder output, any number of whole lines per read, is decoded to the documents that were encoded |
| Framing.LineReadsConcat | hvjson/streaming.go:51-74 | Those reads are the output |
| Framing.WrittenIsCut | hvjson/streaming.go:201-213 | Documents driven through the Write* calls and read back in one piece come out again |
| Framing.IntegerAtEndOfRead | hvjson/streaming.go:1003-1015 | Anywhere in any window, an integer without another number byte behind it is returned exactly when it is zero or the window goes on behind it |
| Streaming.StreamEncoder.Encode | hvjson/streaming.go:51-74 | One write of document and line feed; nothing for a value that cannot be encoded, nothing after an error |
| Streaming.StreamDecoder.Fill | hvjson/streaming.go:1075-1141 | A read appends when a byte is left and otherwise starts the buffer again |
| Streaming.StreamDecoder.SkipWhitespace | hvjson/streaming.go:761-785 | Stops at the first byte that is no white space, in this window or a later one, or at the end of input |
| Streaming.StreamDecoder.SkipValue | hvjson/streaming.go:788-818 | The specified scan while the value is in the window, and Malformed for text in the window that no value goes on with; in every case it ends, stays in range and passes at least one byte if it succeeds |
| Streaming.StreamDecoder.SkipString | hvjson/streaming.go:821-848 | The same for strings |
| Streaming.StreamDecoder.SkipObject | hvjson/streaming.go:851-907 | The same for objects |
| Streaming.StreamDecoder.SkipArray | hvjson/streaming.go:910-947 | The same for arrays |
| Streaming.StreamDecoder.SkipLiteral | hvjson/streaming.go:957-987 | The same for literals, tried in order |
| Streaming.StreamDecoder.SkipNumber | hvjson/streaming.go:990-1066 | The same for numbers; an integer that the window cuts ends at position 0 of the next read, if that does not take it on, or at the end of input |
| Streaming.StreamDecoder.Decode | hvjson/streaming.go:693-736 | The next value, the end of input, Malformed, or a final error, as specified; a cut integer is lost: the call fails at the end of input, or, unless the next read starts with a dot or an exponent, on the empty text that is left; nothing for other cut values |
| Streaming.ReadAll | hvjson/streaming.go:693-736 | A client that reads until a call fails gets exactly the values the input is cut into, and then the end of input |
| Streaming.LosesInteger | hvjson/streaming.go:1102-1106 | A client whose first read is an integer other than zero gets an error instead of it |
| Streaming.SendAndReceive | hvjson/streaming.go:51-74 | Documents sent by the stream encoder and read back some lines at a time come out again; with HTML escaping and within the limit nothing stops the sender |
| Cache.StepOk | hvjson/fast.go:20-49 | Every step of every thread keeps the protocol invariant, and entries once published stay |
| CacheSafety.CacheIsSafe | hvjson/cache.go:35-69 | Over all interleavings: each entry is built at most once, a finished once means a published entry, no call finds it missing, every call returned the published entry |
| CacheSafety.CallersAgree | hvjson/fast.go:20-49 | Two calls for one entry, by any threads at any times, return the same |
| CacheSafety.EntriesAreClosed | hvjson/cache.go:117-118 | A published entry was built from the published entries of what it depends on, built earlier |
| CacheSafety.StructSharesEncoders | hvjson/fast.go:104-126 | The encoder of a struct and its field table were built from the same field encoders, one for each field in order |
| CacheLiveness.TypesRankEntries | hvjson/fast.go:104-126 | The rank order: encoder of a struct above its field table above the encoders of its fields |
| CacheLiveness.NoDeadlock | hvjson/cache.go:47-61 | When types do not contain themselves, some unfinished thread can always step |
| CacheLiveness.BusyRunsEnd | hvjson/cache.go:35-69 | No run of such types goes on for ever |
| CacheLiveness.CallsComplete | hvjson/cache.go:35-69 | When no thread can step any more every call has been answered, in order |
| CacheLiveness.FineCallsComplete | hvjson/cache.go:35-69 | Recursive types do not hold up the others: from any state of any run, a thread that asks for types without recursion inside can have all its calls answered, whatever the other threads ask for |
| CacheLiveness.SelfContainedNeverReturns | hvjson/fast.go:52-58 | No call for an entry that needs itself ever returns |
| CacheLiveness.RecursiveTypeNeverReturns | hvjson/fast.go:52-126 | For a type that contains itself through pointers, slices and structs no encoder is published and no call returns |
| CacheLiveness.RecursivePointerDeadlocks | hvjson/fast.go:56-58 | A single thread asking for a pointer type to itself waits for itself |

## Left out

- Encoding.Encoder.EncodeValue: says when a panic of the plain escape path cannot happen; when it does happen inside a larger value depends on the capacity after every earlier append, and is stated for the single string (EncodeString).
- FastEncoding.FastMarshal: the same reservation about the panic of the plain escape path.
- FastEncoding.ReflectMarshal: the same reservation about the panic of the plain escape path.
- Encoding.Encoder.EncodeMap: takes the members in a given order; the order of map keys is not specified by Go.
- Decoding.Decoder.DecodeValue: targets are interface{} values; struct fields are interface{} too, and decoding into typed scalars, pointers and existing maps is not modelled.
- Decoding.Decoder.DecodeNumber: floats are kept as their texts; which of them are whole, for UseInt64, is a parameter.
- Streaming.StreamDecoder.Decode: for a value that is not whole in the window it starts in, the outcome is stated for integers that the next read does not take on; for other cut values only that no index is out of range, the input is consumed and errors are final. The scanner drops the started value there (hvjson/streaming.go:1102-1106).
- Streaming.StreamDecoder.Fill: the growth of the buffer and its pool are not modelled; a read returns at least one byte or the end of input.
- Cycles.EncodeExact: takes a struct as an object of its fields; that an addressable struct is handed to compiled code is modelled in Compiler, for finite values, and in Mixture, for cyclic ones.
- Mixture.MixedNoFalseAlarm: the limit an acyclic value needs is stated in Routes.MixedExact. Maps, arrays and omitempty are not among the types there, and no method of the encoder object is proved against the mixture; FastEncoder does that without interfaces.
- Compiler.CompilerCorrect: maps and Go arrays are not among the types, because their emptiness tests differ between the paths (hvjson/fast.go:236-248).
- FastEncoding.RunCode: asks for field names without bytes to escape, because names are pre-encoded raw (hvjson/cache.go:111-115).
- FieldTables.BuildFieldsCache: the size estimate is in FastEncoding.EstimatedSize, the field's compiled encoder in the cache protocol; case folding is a parameter.
- WriterSpec.DriveEqualsPrint: containers directly as array elements go through WriteValue, because the start calls do not touch the parent frame (hvjson/streaming.go:275-279); started directly they need WriteMore between them, which gives the right text in compact mode (WriterSpec.ArrayOfContainers).
- Writing.IncrementalStreamEncoder.Encode: promises no valid state after a document of Write* calls, whose successors it disconnects from the stream (hvjson/streaming.go:169, hvjson/streaming.go:206-213).
- WriteRawBytes, whose contents are the caller's.
- Partial writes, which the writer contract excludes (hvjson/encoder.go:180).
- Recursive Go types as values: their encoders are never built, see CacheLiveness.SelfContainedNeverReturns.
- Panics inside a once function, and memory ordering below the level of the locks.
- Pools, scratch arrays, unsafe pointers and the aliasing of returned slices: bytes are values.
- Go arrays and buffers that only grow are sequences; the integer formatters work in place on an array.
- Formatting of floating point numbers: a float is the text the library prints for it; NaN and infinities are refused before that and are not modelled.
- Error messages and positions: errors are codes.
- The configuration plumbing of hvjson/api.go.
