# reflgen verification

This project models the parts of reflgen whose behaviour is the hardest to see from the code, and proves
what they promise:

- the **binary codec**: tags, LEB128 varints, zigzag, the writer's frames and the pull reader;
- the **JSON codec**: the writer with its layouts, and the pull reader with numbers, strings, escapes,
  UTF-8 and base64, against a grammar of RFC 8259 that mentions no reader;
- the **F# table emitter**: which value types are declared, in which order, and when pointers add more;
- the **PrSM binding pipeline**: selection by directives, lowering, acceptance, descriptors and digests,
  symbols, native tables, and the check of a binding at run time;
- the **interop contract** whose digest the two sides of a boundary compare;
- the **attribute scan** of C++ source: matching brackets, attribute lists, runs of groups around a
  declaration, and the **lexer** of preprocessed text that feeds it.

Readers, writers and the emitter are classes with the fields of the original and methods that update them;
loops are loops. Each is proved against pure functions, and the main results are theorems about those.
Bytes are numbers below 256, 64-bit arithmetic is written out where the original relies on it, and failures
are results with a fault and the offset they report. `dafny verify dfyconfig.toml` checks everything.

Modules build on one another as follows. `Bytes`, `Names`, `Decimals`, `Netstrings`, `Permutations` hold
what is shared; `Serial`, `Building` and `Reading` the values, calls and results that both codecs have in
common. `BinaryFormat` and `BinaryGrammar` say what the format is, `BinaryWriter`, `BinaryReader` and
`BinaryConsumer` are the classes and their use, `BinaryProtocol`, `BinaryTheorems` and `BinaryDocuments`
the results. `FSharpAcceptance` says which tables can be lowered, `FSharpState` what every step of the emitter
keeps, `FSharpSteps` what a step does to the verdict, `FSharpVerdict` that the verdict is that of
`FSharpAcceptance`. The JSON modules follow the same plan, with `JsonLayout` (tokens and spaces), `JsonRuns`,
`JsonUnfinished`, `JsonRuins` and `JsonReadability` (what a writer holds after arbitrary calls) and
`JsonSyntax` and `JsonMeaning` (the grammar, and what its texts denote).

What a reader, a writer or an emitter answers is also told without them, so that a function and the method
proved against it cannot be wrong together: `BinaryMeaning` and `BinaryWire` (numbers, byte order, faults),
`JsonPrinting` and `JsonSheets` (the lines of a printed document), `JsonSpelling` and `JsonFaults`,
`FSharpShapes` and `FSharpTables` (which types and tables can be lowered, and what the built-in names mean),
`PrsmMeaning`, `PrsmIdentity` and `PrsmGuarantees` (slots of calls, equal descriptors, accepted modules),
`MetadataPrinting` and `AttributePrinting` (text that is printed and lexed back), `NameParts`, and
`KnownAnswers` (encodings, vectors and field orders that tests, standards and the ABI document fix).

## Findings

One promise that the code does not keep. A JSON writer that reports it is complete need not hold a JSON
text: a call that is refused because its text is not UTF-8 may already have written a comma or taken the
place of a value (`include/reflgen/json/writer.h:103-115`, `145-160`, `189-212`, `244-248`).
`JsonCounterexample.CompleteButUnreadable` gives a run: an object with one entry, a second key that is
refused, a third key and its value. The writer ends complete, with `{"a":1,,"b":2}`.

When it happens is told exactly by `JsonRuins.Ruins`, a condition on one call and the writer's state before
it. With "bad" for a string or a key that is not UTF-8, a call ruins the text when it is

- a bad string that is due where it stands: as the only value, under a key, or behind another item of an
  array;
- a well placed bad key behind another entry;
- any value that is begun in an array whose first item was a refused bad string.

Everything else a caller may do, refused or not, does no harm; so an array that ends right after its first
item was refused is an empty array, and a bad first key of an object leaves only spaces.
`JsonReadability.ReadableExactlyWhenNotRuined` proves, for all runs, that the text of a complete writer can
be read exactly when no call has ruined it, and `JsonMeaning.WritesJsonTextExactlyWhenNotRuined` that it is
a text of RFC 8259 exactly then.

The binary writer has no such case: `BinaryProtocol.CompleteRunWroteOneValue` holds for all runs.

## Model

| member | source | states |
|---|---|---|
| BinaryTheorems.RoundTrip | include/reflgen/binary/reader.h:214-381 | a value is read back from its encoding exactly when it nests no deeper than the limit, and then unchanged and to the end of the input |
| BinaryTheorems.EncodeIsInjective | include/reflgen/binary/reader.h:332-381 | no two values have the same encoding |
| BinaryTheorems.Canonicalises | include/reflgen/binary/reader.h:340-381 | re-encoding an accepted input is never longer, reads as the same value, and differs from the input exactly when it is shorter |
| BinaryTheorems.ClaimsBelowInput | include/reflgen/binary/reader.h:363-373 | all counts and lengths that a successful read accepted add up to less than the input |
| BinaryTheorems.TakeVarintOfVarint | include/reflgen/binary/reader.h:340-359 | a written varint is read back as its number, whatever follows |
| BinaryTheorems.VarintOfTakeVarint | include/reflgen/binary/reader.h:340-359 | an accepted varint has at most ten bytes, fits 64 bits, and is never shorter than the varint the writer makes of its number |
| BinaryTheorems.DecodeWithHigherLimit | include/reflgen/binary/reader.h:276-283 | what is read under a depth limit is read the same under any higher one |
| BinaryTheorems.PullOfDecode | include/reflgen/binary/reader.h:59-212 | a consumer that makes the typed calls for what is there gets it, and ends where the value ends |
| BinaryTheorems.DecodeOfPull | include/reflgen/binary/reader.h:59-258 | a sequence of typed reads that succeeds, whatever types it asks for, ends where skipping the value ends |
| BinaryTheorems.PullRoundTrip | include/reflgen/binary/reader.h:59-267 | typed reads of the shape that was written give the written value and the end of the input, for every value within the limit |
| BinaryFormat.ZigZagInRegister | include/reflgen/binary/writer.h:43-49 | the shift and exclusive or on 64-bit registers give the zigzag number, for every signed value |
| BinaryFormat.UnZigZagInRegister | include/reflgen/binary/reader.h:75-94 | the shift, the mask and the exclusive or on registers undo zigzag, for every unsigned value |
| BinaryFormat.ZigZagIsBijective | include/reflgen/binary/reader.h:75-94 | zigzag and its inverse are inverse to each other both ways |
| BinaryGrammar.GroupInRegister | include/reflgen/binary/reader.h:340-359 | adding a group by shift and or in a 64-bit register loses no bit and overwrites none, for each group that the reader lets through |
| BinaryProtocol.RunMatches | include/reflgen/binary/writer.h:81-188 | after any sequence of calls, carried out or refused, the writer corresponds to the tree that the calls it carried out have built so far |
| BinaryProtocol.CompleteRunWroteOneValue | include/reflgen/binary/writer.h:133-188 | after any sequence of calls, a complete writer has appended exactly one encoded value within the depth limit, and the calls it carried out are those that write it |
| BinaryWriter.Writer.WriteInt | include/reflgen/binary/writer.h:43-49 | the call ends in the state that the pure step of the writer gives, with the encoding made in register arithmetic |
| BinaryWriter.Writer.BeginArray | include/reflgen/binary/writer.h:81-88 | depth and place are checked before anything changes; then tag, count and frame are added |
| BinaryWriter.Writer.WriteKey | include/reflgen/binary/writer.h:108-122 | a key is refused outside an object, behind another key or past the declared size, and then nothing changes |
| BinaryWriter.Writer.EndObject | include/reflgen/binary/writer.h:124-131 | an object ends only with all its declared entries and no key without a value |
| BinaryWriter.Writer.BeginValue | include/reflgen/binary/writer.h:153-179 | a value is refused when the only value was written, when a key is due, or when the container is full; else its place is taken |
| BinaryWriter.Writer.Close | include/reflgen/binary/writer.h:181-188 | the innermost frame is dropped when its container is complete, and nothing changes otherwise |
| BinaryWriter.Writer.PutVarint | include/reflgen/binary/writer.h:192-200 | the loop appends the LEB128 form of the number |
| BinaryReader.Reader.TakeVarint | include/reflgen/binary/reader.h:340-359 | the loop over groups takes what the grammar takes and fails with the same fault |
| BinaryReader.Reader.TakeLength | include/reflgen/binary/reader.h:363-373 | a count is refused when that many items of the least size cannot follow |
| BinaryReader.Reader.ReadInt | include/reflgen/binary/reader.h:75-94 | signed and unsigned tags are both accepted when the number fits, and the fault is that of the grammar otherwise |
| BinaryReader.Reader.ReadUint | include/reflgen/binary/reader.h:96-116 | the number of an integer of either tag, as BinaryMeaning.UnsignedIsReadExactly says, where a negative one is refused |
| BinaryReader.Reader.ReadFloat | include/reflgen/binary/reader.h:118-139 | a floating-point number, or an integer converted to one |
| BinaryReader.Reader.BeginObject | include/reflgen/binary/reader.h:183-189 | a count that leaves room for keys and values, and the depth limit |
| BinaryReader.Reader.NextElement | include/reflgen/binary/reader.h:165-172 | takes one of the promised elements, if there is one left |
| BinaryReader.Reader.NextKey | include/reflgen/binary/reader.h:191-203 | takes one of the promised entries and its key, if there is one left |
| BinaryReader.Reader.EndArray | include/reflgen/binary/reader.h:174-181 | refused while elements are left; else one container fewer is open |
| BinaryReader.Reader.SkipValue | include/reflgen/binary/reader.h:214-258 | skipping succeeds on the same inputs, fails with the same fault and ends at the same place as decoding, with the same containers open |
| BinaryReader.Reader.Finish | include/reflgen/binary/reader.h:261-267 | succeeds exactly at the end of the input |
| BinaryMeaning.LeafReadExactly | include/reflgen/binary/reader.h:59-160 | a typed read succeeds exactly where a leaf stands that denotes such a value: an integer of either tag by its number if it is in range, a floating-point number by its bits, an integer as the number it converts to |
| BinaryMeaning.UnsignedIsReadExactly | include/reflgen/binary/reader.h:96-116 | an unsigned read gives a number exactly where an integer of either tag stands for that number and it is not negative |
| BinaryMeaning.SignedIsReadExactly | include/reflgen/binary/reader.h:75-94 | a signed read gives a number exactly where an integer of either tag stands for that number and it fits 64 bits with a sign |
| BinaryMeaning.FloatIsReadExactly | include/reflgen/binary/reader.h:118-139 | a floating-point read gives the bits that are there, or those of the number that an integer converts to |
| BinaryMeaning.LeafIsRefused | include/reflgen/binary/reader.h:59-160 | a typed read that fails has the fault of its tag, of what follows the tag, or of a number out of range |
| BinaryMeaning.ReadExactly | include/reflgen/binary/reader.h:59-258 | typed reads of a shape give a value exactly where decoding gives a tree that denotes it with these types |
| BinaryWire.VarintIsTakenExactly | include/reflgen/binary/reader.h:340-359 | a varint is taken exactly where at most ten groups, all but the last marked, add up to a number of 64 bits, in the shortest form or not |
| BinaryWire.LittleIsPlaceValue | include/reflgen/binary/reader.h:118-139 | of the bytes of a floating-point number the first is the lowest: each counts for a power of 256 |
| BinaryWire.PeekTellsTheKind | include/reflgen/binary/reader.h:33-57 | peeking tells the kind of the value that is decoded there, and nothing is decoded where it fails |
| BinaryWire.FaultIsSeen | include/reflgen/binary/reader.h:214-381 | whatever cannot be read is refused for what stands at the offset of the fault: the end, an unknown tag, a number past 64 bits, a count larger than what is left, a container |
| BinaryWire.VarintIsLeb | include/reflgen/binary/writer.h:192-200 | a number is written in the one shortest LEB128 form it has |
| KnownAnswers.BinaryEncodings | tests/binary_tests.cpp:29-41 | the exact encodings of ten small values |
| KnownAnswers.BinaryFloat | tests/binary_tests.cpp:29-41 | the encoding of the number one, lowest byte first |
| KnownAnswers.BinaryCrossReads | tests/binary_tests.cpp:76-94 | integers are read with a sign or without, as far as they are in range |
| KnownAnswers.BinaryRefusals | tests/binary_tests.cpp:96-112 | malformed inputs are refused with the fault and the offset they have |
| BinaryConsumer.Pull | include/reflgen/binary/reader.h:59-212 | the calls of a consumer that knows the shape of a value give what the pure reading gives, and on success as many containers are open as before |
| BinaryDocuments.PerformTree | include/reflgen/binary/writer.h:31-188 | writing a value where one is due appends its encoding if it nests within the limit, and is refused otherwise |
| BinaryDocuments.Write | include/reflgen/binary/writer.h:31-188 | the calls that write a value end in the state that performing them up to the first refusal gives |
| BinaryDocuments.ToBytes | include/reflgen/binary/writer.h:31-209 | a document is written exactly when the value nests within the limit, and is its encoding |
| BinaryDocuments.FromBytes | include/reflgen/binary/reader.h:59-267 | a document is read as a value of the shape exactly if what it decodes to, up to its end, denotes that value; or the first fault is given |
| BinaryDocuments.WriteThenRead | include/reflgen/binary/reader.h:28-267 | through the writer and the reader, every value within the limit comes back unchanged |
| Utf8.DecodeOfAppend | include/reflgen/serial/detail/utf.h:21-106 | the bytes of a scalar value are decoded as that value, wherever they stand |
| Utf8.AppendOfDecode | include/reflgen/serial/detail/utf.h:52-106 | whatever is decoded is a scalar value in exactly the bytes it is encoded in: no overlong form and no surrogate |
| Utf8.Validate | include/reflgen/serial/detail/utf.h:108-115 | the loop accepts exactly the texts that are scalar values one after the other |
| Utf8.ScalarsOf | include/reflgen/serial/detail/utf.h:108-115 | an accepted text is the encoding of a sequence of scalar values |
| Utf8.AppendAllIsValid | include/reflgen/serial/detail/utf.h:21-49 | the encoding of any sequence of scalar values is accepted |
| Utf8.PairsAreBijective | include/reflgen/serial/detail/utf.h:52-106 | surrogate pairs and the code points from U+10000 up correspond one to one |
| Utf8.PairsAreOrdered | include/reflgen/serial/detail/utf.h:52-106 | pairs are in the order of their code points, so there is no other such correspondence |
| Utf8.AppendHasBits | include/reflgen/serial/detail/utf.h:21-49 | one to four bytes by the size of the scalar value, with its bits where section 3 of RFC 3629 has them |
| Base64.EncodedLength | include/reflgen/json/base64.h:16-45 | four symbols for every three bytes begun |
| Base64.DecodeOfEncode | include/reflgen/json/base64.h:16-112 | decoding undoes encoding, for all bytes |
| Base64.EncodeOfDecode | include/reflgen/json/base64.h:73-112 | encoding an accepted text gives it back but for the bits of the last symbol that belong to no byte |
| Base64.DecodesExactlyWellFormed | include/reflgen/json/base64.h:73-112 | accepted are exactly the texts of whole blocks over the alphabet, padded only in the last |
| Base64.EncodeBytes | include/reflgen/json/base64.h:16-45 | the loop over whole blocks and the rest, through its 24-bit register, gives the encoding |
| Base64.DecodeText | include/reflgen/json/base64.h:73-112 | the loop over blocks, through its register, gives the decoding or its error |
| KnownAnswers.Utf8Vectors | include/reflgen/serial/detail/utf.h:21-106 | the examples of section 7 of RFC 3629, and the surrogate pair of section 7 of RFC 8259 |
| KnownAnswers.Base64Vectors | include/reflgen/json/base64.h:16-45 | the test vectors of section 10 of RFC 4648 for up to three bytes |
| KnownAnswers.Base64Alphabet | include/reflgen/json/base64.h:16-45 | the alphabet of section 4 of RFC 4648 |
| JsonNumber.ScanOfText | include/reflgen/json/reader.h:397-448 | where a number of the grammar is spelled and nothing that could belong to it follows, it is scanned as that number |
| JsonNumber.TextOfScan | include/reflgen/json/reader.h:397-448 | whatever is scanned is a number of the grammar, spelled there |
| JsonText.ParseOfQuoted | include/reflgen/json/reader.h:479-524 | parsing undoes quoting for every UTF-8 text, whatever follows |
| JsonText.BodyIsValid | include/reflgen/json/reader.h:479-582 | a parsed string is well-formed UTF-8 |
| JsonText.BodyIsShorter | include/reflgen/json/reader.h:479-582 | a parsed string is never longer than its spelling |
| JsonText.EscapeNamesScalar | include/reflgen/json/reader.h:526-582 | each scalar value below U+10000 can be named by its four digits |
| JsonText.PairNamesScalar | include/reflgen/json/reader.h:526-582 | a pair of escapes names the code point of its surrogates |
| JsonText.LoneSurrogateIsRefused | include/reflgen/json/reader.h:526-582 | an escape that names one surrogate alone is refused |
| JsonText.QuotedIsClean | include/reflgen/json/writer.h:244-291 | a quoted text of any bytes has no raw control byte and no quote inside that is not escaped |
| JsonSpelling.QuotedIsShortest | include/reflgen/json/writer.h:244-291 | the writer spells a text in no more bytes than any spelling that a reader takes for it |
| JsonSpelling.OnlyTheseAreEscaped | include/reflgen/json/writer.h:244-291 | what is escaped is a quote, a backslash or a control byte, and digits above nine are lower-case |
| KnownAnswers.JsonTokens | include/reflgen/json/reader.h:71-92 | the literals, brackets and white space of RFC 8259, and some escapes |
| JsonFaults.PeekTellsTheKind | include/reflgen/json/reader.h:34-69 | peeking tells the kind of the syntax tree that is laid out; a number is an integer without fraction and exponent |
| JsonFaults.FaultIsSeen | include/reflgen/json/reader.h:272-310 | whatever is not skipped is refused for what stands at the offset of the fault: a byte that starts no value, a missing comma, colon or key, no number or string of the grammar, half of a surrogate pair |
| JsonFaults.TypedFaultIsSeen | include/reflgen/json/reader.h:71-183 | a typed read fails at its value for the type, or for what is wrong with its number or its string |
| JsonSyntax.ParsedExactlySpelled | include/reflgen/json/reader.h:479-582 | a string is parsed exactly where characters of section 7 of RFC 8259 are spelled between quotes, and as the text they stand for |
| JsonSyntax.SkipOfSyntax | include/reflgen/json/reader.h:272-310 | a laid out syntax tree of RFC 8259 that nests within the limit is skipped, and no further than its last token |
| JsonSyntax.SyntaxOfSkip | include/reflgen/json/reader.h:272-310 | whatever is skipped is a laid out syntax tree that nests within the limit |
| JsonSyntax.SkipsExactlyJsonTexts | include/reflgen/json/reader.h:272-320 | skipping a value and finding nothing behind it succeeds exactly on the texts of RFC 8259; names may repeat, strings are UTF-8 without lone surrogates, containers nest within the limit |
| JsonMeaning.PullOfSyntax | include/reflgen/json/reader.h:71-270 | wherever a syntax tree that denotes a value is laid out, typed reads give that value |
| JsonMeaning.SyntaxOfPull | include/reflgen/json/reader.h:71-270 | whatever typed reads give is denoted by a syntax tree that is laid out there |
| JsonMeaning.ReadsExactlyWhatIsDenoted | include/reflgen/json/reader.h:71-320 | with the types of a value, a text is read as that value exactly when it is a text of the grammar that denotes it: whatever its spaces, escapes and spellings of numbers |
| JsonMeaning.ReadTextsAreJsonTexts | include/reflgen/json/reader.h:71-320 | skipping accepts every text that any typed reads accept |
| JsonMeaning.WritesJsonTextExactlyWhenNotRuined | include/reflgen/json/writer.h:103-212 | after any calls, what a complete writer holds is a text of RFC 8259 exactly when no call has ruined it, at this depth limit and at any other |
| JsonWriter.Writer.WriteFloat | include/reflgen/json/writer.h:163-177 | the shortest text, with a fraction added to an integer; a number without a text is refused |
| JsonWriter.Writer.WriteString | include/reflgen/json/writer.h:64-68 | the whole new state, refusals included: a text that is not UTF-8 is refused after its place was taken |
| JsonWriter.Writer.WriteKey | include/reflgen/json/writer.h:103-115 | the whole new state: a refused key leaves the comma before it |
| JsonWriter.Writer.EndObject | include/reflgen/json/writer.h:117-125 | refused outside an object or behind a key without a value; else the line breaks the layout asks for and the brace |
| JsonWriter.Writer.Separate | include/reflgen/json/writer.h:146-160 | a comma before every item but the first, then a space or a new line, indented as JsonSheets.LinesAreIndented says |
| JsonWriter.Writer.BeginValue | include/reflgen/json/writer.h:189-212 | where a value may be written, and what separates it from the one before |
| JsonWriter.Writer.Close | include/reflgen/json/writer.h:214-224 | the bracket, on a line of its own at the indentation of what is outside, unless the container is empty or inline |
| JsonWriter.Writer.AppendQuoted | include/reflgen/json/writer.h:244-291 | the quoted text, unless the text is not UTF-8 |
| JsonPrinting.PrintedLines | include/reflgen/json/writer.h:138-234 | in a printed document every line feed outside strings is followed by exactly as many spaces as the indentation times the containers that are open there, one fewer before a closing bracket, and then by no space |
| JsonPrinting.FlatIsOneLine | include/reflgen/json/writer.h:138-160 | between the brackets of an inline container there is no line feed |
| JsonSheets.RunPrints | include/reflgen/json/writer.h:34-236 | after any calls that spoil nothing, what the writer holds is the start of the printed form of what those calls wrote, inline marks included |
| JsonSheets.LinesAreIndented | include/reflgen/json/writer.h:226-234 | after any such calls, every line of what the writer holds is indented by its depth |
| JsonSheets.EveryTextIsPrinted | include/reflgen/json/writer.h:34-236 | what is written of a value, with inline hints anywhere, is its printed form: one item on each line, inline containers on one |
| JsonSheets.CompactIsJoined | include/reflgen/json/writer.h:34-236 | without indentation the text is the tokens of the value, one behind the other |
| JsonRuns.RefusalChangesNothingExactlyWhen | include/reflgen/json/writer.h:64-125 | a refused call leaves output, frames and flags as they were exactly when it does not spoil them; which calls do is told from call and state |
| JsonRuins.RunMatches | include/reflgen/json/writer.h:34-236 | after any calls none of which ruins the text, the writer corresponds to the tree that the calls it carried out have built so far |
| JsonReadability.CompleteRunWroteOneValue | include/reflgen/json/writer.h:34-236 | if no call ruins the text and the writer is complete, then the calls it carried out are those that write some one value, and the text is read back as that value |
| JsonReadability.RuinedIsLost | include/reflgen/json/writer.h:103-212 | once a call has ruined the text, nothing that is called later repairs it |
| JsonReadability.ReadableExactlyWhenNotRuined | include/reflgen/json/writer.h:103-212 | after any calls, the text of a complete writer can be read exactly when no call has ruined it, and a ruined one is read by no consumer, whatever its types and its limit |
| JsonCounterexample.CompleteButUnreadable | include/reflgen/json/writer.h:103-115 | a run with a refused key that ends complete and unreadable |
| JsonReader.Reader.Peek | include/reflgen/json/reader.h:34-69 | the kind of the next value, or the fault, without taking anything but spaces |
| JsonReader.Reader.ReadInt | include/reflgen/json/reader.h:93-109 | an integer without fraction and exponent that fits 64 bits with a sign; each failure has its fault |
| JsonReader.Reader.ReadUint | include/reflgen/json/reader.h:111-129 | the same without a sign; minus zero is refused too |
| JsonReader.Reader.ReadFloat | include/reflgen/json/reader.h:131-158 | any number that is in range |
| JsonReader.Reader.ReadString | include/reflgen/json/reader.h:160-168 | the text of a string, or the fault of its spelling |
| JsonReader.Reader.ReadBytes | include/reflgen/json/reader.h:170-183 | the bytes that a string of base64 stands for |
| JsonReader.Reader.ScanNumber | include/reflgen/json/reader.h:397-448 | the scan with its position takes exactly what the grammar of numbers takes |
| JsonReader.Reader.ParseString | include/reflgen/json/reader.h:479-524 | the loop over characters gives what the pure parser gives, with the same fault at the same offset |
| JsonReader.Reader.ReadHex4 | include/reflgen/json/reader.h:450-476 | four hexadecimal digits of either case |
| JsonReader.Reader.NextElement | include/reflgen/json/reader.h:197-204 | the next element and no trailing comma, or the end of the array in sight |
| JsonReader.Reader.NextKey | include/reflgen/json/reader.h:233-255 | the next key and its colon, or the end of the object in sight |
| JsonReader.Reader.SkipValue | include/reflgen/json/reader.h:272-310 | the loops over elements and entries end where the pure skipping ends, with the same fault and as many containers open as before |
| JsonReader.Reader.Finish | include/reflgen/json/reader.h:313-320 | succeeds exactly when only spaces are left |
| JsonConsumer.Pull | include/reflgen/json/reader.h:71-270 | the calls of a consumer that knows the shape of a value give what the pure reading gives |
| JsonTheorems.EveryLayoutReadsBack | include/reflgen/json/writer.h:34-236 | for every value that may be written, every indentation and inline hints anywhere between its calls: no call is refused, the writer is complete, and the text is read back as the value |
| JsonTheorems.ReadWriteRead | include/reflgen/json/reader.h:71-320 | whatever was read can be written in any layout within the same limit, and is then read back unchanged |
| JsonTheorems.SkipOfPull | include/reflgen/json/reader.h:71-310 | typed reads that succeed end where skipping ends, whatever the types |
| JsonTheorems.PulledIsWritable | include/reflgen/json/reader.h:71-270 | whatever is read is UTF-8, in range and within the depth limit |
| JsonLayout.PullOfLaid | include/reflgen/json/reader.h:71-270 | wherever the tokens of a value are laid out with any spaces between them, the value is read and ends with its last token |
| JsonDocuments.WrittenExactlyWhen | include/reflgen/json/writer.h:34-236 | some call that writes a value is refused exactly when it nests too deep or holds a text that is not UTF-8 |
| JsonDocuments.ToText | include/reflgen/json/writer.h:34-236 | a text is made exactly of the values that nest within the limit and hold UTF-8, and is the printed form of the value at that indentation |
| JsonDocuments.WriteThenRead | include/reflgen/json/writer.h:34-236 | through the writer and the reader, every such value comes back unchanged, at any indentation |
| JsonDocuments.FromText | include/reflgen/json/reader.h:71-320 | a text is read with the types asked for and to its end, or the first fault is given |
| FSharpModel.RepresentableLayout | generator/src/fsharp_table.cpp:346-368 | the fields of a representable record are aligned, inside it, and do not overlap |
| FSharpModel.RepresentableIsAcyclic | generator/src/fsharp_table.cpp:346-368 | by value, a representable type holds nothing of itself and nothing more than 64 levels deep |
| FSharpShapes.RepresentableExactly | generator/src/fsharp_table.cpp:346-368 | a value type can be declared exactly if every path of parts from it ends at a plain record or enum, repeats no type and is at most 64 long |
| NameParts.QualifiedExactly | generator/src/fsharp_table.cpp:18-36 | a name is qualified exactly if it joins identifiers by the separator |
| NameParts.FlattenJoins | generator/src/fsharp_table.cpp:38-48 | a flattened name is the identifiers of the qualified name joined by underscores, and an identifier |
| FSharpState.OutputIsFaithful | generator/src/fsharp_table.cpp:178-239 | in a finished output every type of a field, an enum, a result or a parameter stands for its native type: a built-in name of the same kind, sign and size, or a definition of its own |
| FSharpState.DefinedBeforeUse | generator/src/fsharp_table.cpp:370-393 | in a finished output every type name in a definition is built in, or given by exactly one definition, which comes before |
| FSharpState.DefinedExactlyOnce | generator/src/fsharp_table.cpp:370-393 | each lowered value type has exactly one definition |
| FSharpState.HeldIsDefinedBefore | generator/src/fsharp_table.cpp:270-330 | what a value type holds by value, directly or in inline arrays, is defined before it |
| FSharpState.PointedIsDefined | generator/src/fsharp_table.cpp:205-213 | what a lowered type points to is defined too if it can be, though pointers may form cycles |
| FSharpState.SignatureIsDefined | generator/src/fsharp_table.cpp:395-465 | the same for the results and parameters of the functions of a table |
| FSharpAcceptance.SpelledStandsFor | generator/src/fsharp_table.cpp:270-330 | whatever a type is spelled as stands for it, by the table of built-in names and their meanings |
| FSharpAcceptance.SpelledExactly | generator/src/fsharp_table.cpp:270-330 | which native types have an F# type, by their kinds |
| FSharpAcceptance.IntegerNameMeans | generator/src/fsharp_table.cpp:321-321 | an integer is named by its sign and its size in bits, and the name means that integer |
| FSharpAcceptance.ConventionIsNative | generator/src/fsharp_table.cpp:259-268 | which calling conventions a target has, and which of them are StdCall |
| FSharpAcceptance.DeclaredIsClosed | generator/src/fsharp_table.cpp:270-330 | the value types to declare are closed: with a type they have all that can be declared of what it holds and points to |
| FSharpAcceptance.FieldsAreApart | generator/src/fsharp_table.cpp:409-443 | the fields of an accepted table are in order, apart, and inside the record |
| FSharpAcceptance.HeadersDiffer | generator/src/fsharp_table.cpp:420-463 | in a table with fields in place, the two header offsets are found exactly when both fields are there, and differ |
| FSharpTables.TableExactly | generator/src/fsharp_table.cpp:395-465 | on a 64-bit target a table is lowered exactly if its version and its size are two 32-bit integers in its first eight bytes, and every other field is a slot behind them with a function whose parts can be passed |
| FSharpTables.LowersExactly | generator/src/fsharp_table.cpp:270-330 | a type is lowered exactly if it and the elements of its arrays have a spelling |
| FSharpTables.ValueExactly | generator/src/fsharp_table.cpp:370-393 | a value type is lowered exactly if its parts can be passed, and the cases of an enum are identifiers that differ |
| FSharpTables.TableNamesAre | generator/src/fsharp_table.cpp:188-204 | the names that a table takes are its own, its two constants, and for each function a delegate, a callback and the arrays in its result |
| FSharpTables.ArrayNamesAre | generator/src/fsharp_table.cpp:303-314 | the names of inline arrays: one for each dimension, after its place |
| FSharpTables.PartNamesAre | generator/src/fsharp_table.cpp:376-388 | the arrays of a value type are named after it and its field |
| FSharpTables.ImageExactly | generator/src/fsharp_table.cpp:103-115 | values of one name in several tables have to agree on kind, name, size, alignment, fields, underlying type and cases, and on nothing else |
| FSharpTables.HeadExactly | generator/src/fsharp_table.cpp:178-186 | the module, the namespace, and the targets that tables are lowered for |
| FSharpVerdict.CompletedIsDeclared | generator/src/fsharp_table.cpp:205-213 | what is lowered by value and through the worklist is exactly the least closed set with what the signatures use |
| FSharpVerdict.ErrorsExactly | generator/src/fsharp_table.cpp:178-214 | a lowering has no error exactly when the head, the value layouts, the tables, all values to declare, and the names of all of them are in order |
| FSharpVerdict.AcceptedExactly | generator/src/fsharp_table.cpp:186-187 | whether tables are accepted does not depend on their order: accepted ones have one sorted order |
| FSharpEmitter.Emitter.Reserve | generator/src/fsharp_table.cpp:247-251 | a name that is taken already is an error, and the definitions stay as they are |
| FSharpEmitter.Emitter.Lower | generator/src/fsharp_table.cpp:270-330 | the F# name of a type, which stands for it, after the definitions it needs: on every path the definitions stay ordered, distinct, complete for what was lowered, and arrays have the elements they are for |
| FSharpEmitter.Emitter.LowerArray | generator/src/fsharp_table.cpp:303-314 | an inline array becomes a definition behind that of its element, and claims its own name and those of its element |
| FSharpEmitter.Emitter.LowerPointer | generator/src/fsharp_table.cpp:270-330 | an address keeps its target for later if it can be declared |
| FSharpEmitter.Emitter.LowerValue | generator/src/fsharp_table.cpp:370-393 | a value type is defined once, behind everything it holds, and not again while it is visited |
| FSharpEmitter.Emitter.LowerRecord | generator/src/fsharp_table.cpp:386-388 | the fields of a record in order, each with its definitions before; clean exactly if every field can be lowered |
| FSharpEmitter.Emitter.LowerEnum | generator/src/fsharp_table.cpp:378-385 | the underlying integer; the lowering stays clean exactly if that can be lowered and the case names are distinct identifiers |
| FSharpEmitter.Emitter.LowerFunction | generator/src/fsharp_table.cpp:440-458 | the delegate of a function pointer and the types of its signature; clean exactly if convention, result and parameters can be lowered |
| FSharpEmitter.Emitter.LowerTable | generator/src/fsharp_table.cpp:395-465 | the header offsets and the functions of a table; the lowering stays clean exactly if the table and the new values can be lowered, and then claims exactly their names |
| FSharpEmitter.Emitter.DrainPointed | generator/src/fsharp_table.cpp:205-213 | the worklist ends, and then everything that is pointed to and can be declared is declared |
| FSharpEmitter.Emitter.Run | generator/src/fsharp_table.cpp:178-239 | there is an output exactly when the tables are accepted; its tables are the given ones sorted by managed name, the definitions are finished and fit them, every name in them stands for its native type, and the declared value types are the least closed set the signatures lead to |
| PrsmModel.EnumeratorIsNumeral | generator/src/binding_ir.cpp:154-179 | accepted enumerators are exactly the canonical decimal numerals that the underlying type can hold |
| PrsmModel.EnumeratorValue | generator/src/binding_ir.cpp:154-179 | the scan with its 64-bit register accepts exactly those and never wraps |
| PrsmModel.ScanDigits | generator/src/binding_ir.cpp:154-179 | the loop over the digits stops before the register would wrap |
| PrsmModel.ImagesDiffer | generator/src/prsm.cpp:131-136 | distinct accepted enumerators of one underlying type have distinct unsigned images, each congruent to its number |
| Netstrings.JoinIsInjective | generator/src/binding_ir.cpp:56-59 | joined length-prefixed items can be told apart, whatever bytes they hold |
| PrsmDescriptor.DescriptorIsInjective | generator/src/binding_ir.cpp:181-206 | equal descriptors describe the same call: every fact and every definition it refers to |
| PrsmDescriptor.Descriptor | generator/src/binding_ir.cpp:86-206 | the appending of parts gives the joined items of the facts of the call |
| PrsmDescriptor.NoteNames | generator/src/binding_ir.cpp:86-97 | the value types to define: the first appearance of each, in order |
| PrsmIdentity.EqualExactlyWhenSameAbi | generator/src/binding_ir.cpp:86-206 | two calls have equal descriptors exactly if module, target, native member, operation, effect, receiver, slots and the definitions of the value types they use agree; script names, sources and other declarations have no say |
| KnownAnswers.DescriptorFields | docs/prsm-production-abi.md:292-295 | a field is its length, a colon, itself and a semicolon, also if it is empty |
| KnownAnswers.GetterDescriptor | generator/tests/fixtures/prsm-call-v1.tsv:2 | the fields of a getter in the documented order |
| KnownAnswers.ValueDescriptor | generator/tests/binding_ir_tests.cpp:297-299 | parameters, then the definition of each value type in the order of appearance |
| PrsmGuarantees.RecordsAreLaidOut | generator/src/binding_ir.cpp:330-352 | the fields of an accepted record are numbers on their own alignment, apart, inside it, and of different names |
| PrsmGuarantees.ConflictExactly | generator/src/binding_ir.cpp:463-482 | names conflict exactly if the parts of one begin with the parts of the other |
| PrsmGuarantees.MembersAreWhole | generator/src/binding_ir.cpp:436-462 | in an accepted module a script member is one call that is no setter, or a getter and the setter of the same slot |
| PrsmAcceptance.AcceptancePermutes | generator/src/binding_ir.cpp:280-482 | whether a module is accepted does not depend on the order of its types, values and callables |
| PrsmAcceptance.GlobalsFitExactlyWhen | generator/src/binding_ir.cpp:463-482 | the loop condition on owner names holds exactly when they are distinct, free and without conflicts |
| PrsmBuilder.Check | generator/src/binding_ir.cpp:280-482 | the checks, each a loop over what came before, accept exactly the modules of the declarative condition |
| PrsmBuilder.CheckMembers | generator/src/binding_ir.cpp:436-462 | the calls of one member: a single one that is no setter, or a getter and a setter of the same slot |
| PrsmBuilder.Build | generator/src/binding_ir.cpp:280-497 | there is a module exactly of an accepted input, sorted, with the descriptor digest of each call |
| PrsmBuilder.OrderDoesNotMatter | generator/src/binding_ir.cpp:483-497 | permuting the declarations changes neither acceptance nor the module |
| PrsmMeaning.ScalarExactlyWhen | generator/src/prsm.cpp:37-68 | a native type has a scalar exactly if it is one of those that cross the boundary, and then one of the same kind, sign and width |
| PrsmMeaning.MeaningIsUnique | generator/src/prsm.cpp:37-68 | no two scalars mean the same native type |
| PrsmMeaning.NameTellsWidth | generator/src/prsm.cpp:37-68 | the name of an integer scalar ends in its width in bits |
| PrsmMeaning.ValueSlotExactly | generator/src/prsm.cpp:309-318 | a slot is a value type exactly if the type names a selected one |
| PrsmMeaning.PolicySays | generator/src/prsm.cpp:16-35 | what the directives of a declaration come to, told from the directives alone |
| PrsmMeaning.MethodIsMatched | generator/src/prsm.cpp:396-484 | the call of a lowered method has a slot for each parameter, of the same kind, sign and width or the value type it names, the role its directives give it, and the signature of its slots |
| PrsmMeaning.CallsMatchDeclarations | generator/src/prsm.cpp:219-508 | every call of a built module is the owner ingress of a selected type, or the match of a selected method |
| PrsmMeaning.SpanIsOfWidth | generator/src/binding_ir.cpp:132-151 | the range of an integer scalar is that of its width |
| PrsmLowering.ReadPolicy | generator/src/prsm.cpp:16-34 | directives are read into a map; one that is repeated, or has anything but one ordinary string literal that is not empty, is an error |
| PrsmLowering.LowerMethod | generator/src/prsm.cpp:396-484 | a selected method is lowered exactly when declaration, types and role are supported, into the callable with its symbol and its normalized signature; PrsmMeaning.MethodIsMatched says what its slots mean |
| PrsmLowering.LowerMethods | generator/src/prsm.cpp:383-484 | all methods of a type: errors of unselected ones count too |
| PrsmLowering.LowerClass | generator/src/prsm.cpp:319-382 | one declaration: an error, nothing, or a type with its owner ingress and its methods |
| PrsmLowering.KeepUsedSources | generator/src/prsm.cpp:486-506 | the renumbering loop keeps the sources in the order of their first uses |
| PrsmLowering.UsedSourcesStay | generator/src/prsm.cpp:486-506 | each type and each value still has the source it had |
| PrsmLowering.LeftSourcesAreUsed | generator/src/prsm.cpp:486-506 | every source that is kept is used by a type or a value |
| PrsmLowering.AllAreSelected | generator/src/prsm.cpp:319-485 | the callables are those of the selected members, in order, each with its own symbol |
| PrsmLowering.LowerPrsm | generator/src/prsm.cpp:219-508 | there is a module exactly when no declaration has an error and what they say is accepted; PrsmMeaning.CallsMatchDeclarations says what its calls are |
| PrsmLowering.CallsAreSelections | generator/src/prsm.cpp:219-508 | the calls of a module are its selected members, each once |
| PrsmLowering.CheckBinding | include/reflgen/prsm/validator.h:12-36 | from directives to the check at run time: modules are lowered, built, emitted as tables and linked; the check then says OK exactly for the symbols and digests of selected members |
| PrsmTable.SymbolsAreInjective | generator/src/prsm.cpp:70-80 | a symbol tells its module, its type and its member |
| KnownAnswers.SymbolText | generator/src/prsm.cpp:70-80 | a symbol spells module, type and member in hexadecimal, in this order |
| PrsmTable.DigestIsSpelled | generator/src/prsm_catalog.cpp:99-120 | every byte of a digest is spelled by two digits of its text, the higher one first |
| PrsmTable.DigestsDiffer | generator/src/prsm_catalog.cpp:99-120 | the bytes of a digest are as good as its text |
| PrsmTable.EmitTable | generator/src/prsm_catalog.cpp:99-120 | one entry for each call, in order: symbol, length, digest bytes, address |
| PrsmTable.ValidateBinding | include/reflgen/prsm/validator.h:12-36 | the scan says OK exactly when exactly one entry of all tables has the symbol, and it has an address and the digest |
| PrsmTable.BoundExactlyTheSelected | include/reflgen/prsm/validator.h:12-36 | over the tables of any accepted modules of different names, the check says OK exactly for the symbols and digests of their calls |
| PrsmTable.BuiltIsSelected | generator/src/binding_ir.cpp:280-497 | what is built from lowered declarations meets what the check relies on |
| InteropContract.BuildContract | generator/src/interop.cpp:656-897 | the contract is appended class by class, method by method and layout by layout, classes and methods in sorted order |
| InteropContract.ContractIsInjective | generator/src/interop.cpp:377-396 | accepted interfaces with equal contracts are equal, although methods and fields are listed without a count |
| KnownAnswers.MethodFields | generator/src/interop.cpp:813-823 | the fields of a method in the contract: names, words, result, number of parameters, parameters |
| KnownAnswers.OptionFields | generator/src/interop.cpp:656-664 | the fields in front of all classes |
| KnownAnswers.ContractWords | generator/src/interop.cpp:384-396 | the fields of classes, layouts and their fields, and the words for targets, ownership and passing |
| AttributeGrammar.UnwoundIsEnclosing | generator/src/attribute_scan.cpp:46-74 | the search with its stack of closers finds the bracket that matches, and only that |
| AttributeGrammar.GroupAtIsGroup | generator/src/attribute_scan.cpp:77-139 | reading from the left finds a group exactly where the grammar of attribute lists has one, and that one |
| AttributeGrammar.GroupIsUnique | generator/src/attribute_scan.cpp:77-139 | a place starts at most one group |
| AttributeScan.MatchingParenthesis | generator/src/attribute_scan.cpp:46-74 | the loop finds exactly the parenthesis that matches |
| AttributeScan.ParseGroup | generator/src/attribute_scan.cpp:77-139 | the loop reads exactly the group that the grammar has there, if there is one |
| AttributeScan.ScanAttributeGroups | generator/src/attribute_scan.cpp:159-177 | the scan finds the groups from left to right, none inside another and none left out |
| AttributeScan.ScanIsUnique | generator/src/attribute_scan.cpp:159-177 | a file has one such list of groups |
| AttributeScan.GroupsAreOrdered | generator/src/attribute_scan.cpp:159-177 | groups are in order and apart, and hold their attributes and arguments |
| AttributeScan.ArgumentsAreTheTokensBetween | generator/src/attribute_scan.cpp:77-139 | the byte range of arguments holds exactly the tokens between the parentheses |
| AttributeRuns.GroupsRunAt | generator/src/attribute_scan.cpp:243-264 | the groups that follow an offset: the first begins exactly there, each next one where the last ends, and no further one follows so |
| AttributeRuns.GroupsRunBefore | generator/src/attribute_scan.cpp:266-297 | the groups that lead up to the token at an offset, with nothing but comments between them |
| AttributeRuns.ForwardRunIsUnique | generator/src/attribute_scan.cpp:243-264 | what follows an offset is one run: the groups are determined |
| AttributeRuns.BackwardRunIsUnique | generator/src/attribute_scan.cpp:266-297 | what leads up to a token is one run |
| AttributeRuns.RunsShareNothing | generator/src/attribute_scan.cpp:243-297 | what follows an offset and what leads up to it are different groups |
| AttributeRuns.ForwardIsEndOfBackward | generator/src/attribute_scan.cpp:243-297 | what follows an offset is the end of what leads up to the token behind it |
| MetadataLexer.NextPiece | generator/ifc/src/metadata.cpp:43-170 | one round of the lexer gives a piece exactly when one starts there: spaces, comments, directives, literals, words, punctuation; MetadataPrinting.PrintedIsLexed says which pieces those are |
| MetadataLexer.LexingIsUnique | generator/ifc/src/metadata.cpp:26-174 | a text is lexed in one way |
| MetadataLexer.StuckIsNoLexing | generator/ifc/src/metadata.cpp:26-174 | where no piece starts, no other lexing of the text gets past |
| MetadataPrinting.PrintedIsLexed | generator/ifc/src/metadata.cpp:26-174 | names, numbers, literals, operators, blanks, comments and directives that are printed one behind the other without running together are lexed to exactly those, each with its kind and its place |
| MetadataPrinting.LexGivesPrinted | generator/ifc/src/metadata.cpp:26-174 | the lexer accepts what is so printed exactly when the last line directive names a file, with the tokens that were printed |
| MetadataPrinting.LexedIsPrinted | generator/ifc/src/metadata.cpp:26-174 | whatever is lexed was printed so |
| MetadataPrinting.LexedExactlyWhenPrinted | generator/ifc/src/metadata.cpp:26-174 | the lexer gets through a text exactly if it is printed so |
| MetadataPrinting.LinesAreLineFeeds | generator/ifc/src/metadata.cpp:35-42 | lines are counted by line feeds and by nothing else |
| AttributePrinting.PrintedGroupIsFound | generator/ifc/src/metadata.cpp:26-174 | a group of attributes that is printed among other elements, with scopes and arguments, is lexed and read as the group of exactly those attributes |
| AttributePrinting.AttributesAreRead | generator/ifc/src/metadata.cpp:26-174 | behind a line directive that names a file, any list of attributes, scoped or not, is accepted and read as it is printed |
| MetadataTokens.Lex | generator/ifc/src/metadata.cpp:26-174 | a text is accepted exactly when it can be lexed and its last line directive names a file, and then each token has the file and the line it stands in; MetadataPrinting.LexGivesPrinted says which tokens |
| MetadataTokens.Advance | generator/ifc/src/metadata.cpp:35-42 | each line end counts, and the last tells whether a line starts |
| MetadataTokens.LexedIsSorted | generator/ifc/src/metadata.cpp:165-170 | tokens are in order, apart, and spelled as the text has them |
| MetadataTokens.GroupsStayOutside | generator/ifc/src/metadata.cpp:26-174 | no attribute group begins or ends inside a comment, a literal or a directive, whatever stands there |

## Left out

Codecs
- Floating-point numbers: the binary codec has them as bit patterns, the JSON codec as their texts. How a
  number is printed shortest, which texts are in the range of a double and how an integer becomes a double
  are parameters (`shortest`, `inRange`, `toDouble`); single precision is not part of this model.
- JsonReadability.ReadableExactlyWhenNotRuined: for outputs shorter than 2^64 bytes, which is what a
  `size_t` can measure; the same bound is in all JSON results about finished texts.
- The output buffer is a field of the writer: that the caller might change it between calls is not modelled.
- A reader after a failed call: the model says what fault is given, not what further calls on it would do.
- Messages, lines and columns of errors: faults are a reason and a byte offset.
- The serializers that derive the calls from C++ types; `Pull` and `Write` stand for a consumer and a
  producer of a given shape.
- UTF-16 and UTF-32 conversion apart from surrogate pairs.

F# tables
- FSharpEmitter.Emitter.AddModels: value layouts of one name are compared as structured values, where the
  original compares their JSON text.
- Diagnostics are codes without position and text; the generated F# and C++ texts, the contract's JSON and
  its FNV fingerprint are not part of this model.

PrSM
- PrsmLowering.LowerPrsm: the value types that aliases select are given, already lowered and with valid
  source numbers; their lowering from aliases is not modelled.
- PrsmBuilder.Check: offsets and sizes of fields are unbounded numbers; in the original they are below 2^63.
  A list of value slots of the wrong length is an error in both, and is not looked into further here.
- SHA-256 is a parameter `digest`: that different descriptors have different digests is not claimed, only
  that different calls have different descriptors.
- The native table is data whose pointers can be followed; a missing pointer is `None`.
- The generated bridge, the catalog in JSON, access templates and the validation of receivers at run time.

Interop
- InteropContract.BuildContract: starts from lowered methods and layouts; how methods are accepted, types
  lowered and value aliases sorted, and the generated C, C# and F# texts are not part of this model.
  The passing of a parameter is one word, the one that the original derives from its flags.

Attribute scan and lexer
- `argument_text`, `external_identifiers`, `declares_attribute` and `groups_between`, which only filter what
  is modelled here.
- AttributeRuns.FirstGroupFrom: a linear search, where the original uses a binary search on the same order.
- MetadataLexer.NextPiece: what a line directive says, its number and its normalized file name, is the
  parameter `lineOf`; the module name and the lookup of declarations by position are not modelled.

Elsewhere
- Everything that needs a compiler front end: the frontends over libclang and IFC, name resolution,
  the command line, build integration.
- The runtime descriptors, registries and value handles, whose members are each simple.
