# Models of the message compiler and the XML-RPC stack

This project models two parts of the repository and proves what they promise.

**The genpy serializer compiler.** A message specification is a tree of fields; the generator
flattens it, batches runs of simple fields into `struct` calls, compresses the format strings and
emits straight-line and loop code. `WireTypes` defines specifications, values and the reference
wire format, field by field, and `WireBytes` says what that is byte by byte. `PyTarget` defines the
emitted fragment of Python with a store, a buffer and an input string. `Generator` is the compiler,
as functions and as a class with the context stack, the counter and the chunking loops.
`WrittenBytes`, `SerializeProof`, `DeserializeProof`, `DeserializeFails` and `RoundTrip` prove
exactly when the emitted code writes and reads the wire format and that reading inverts writing;
`NewMessage` and `AnyBytes` cover new objects and bytes from elsewhere.

**The XML-RPC stack.** `XmlText`, `Base64`, `Base64Table`, `XmlNumbers`, `XmlValue`,
`XmlRoundTrip`, `XmlMisread` and `XmlForms` cover tags, entities (section 4.6 of XML 1.0), base64
(section 4 of RFC 4648, section 6.8 of RFC 2045) and the recursive printer and parser of values.
`RpcCall` and `RpcForms` cover the bodies of calls and answers, `HttpFrame`, `HeaderMarks` and
`HttpLines` the framing by Content-length (section 3.3.3 of RFC 7230), `SocketIo` the non-blocking
loops. `ServerConnection` and `ClientConnection` are the two state machines as classes;
`ServerRuns` and `ClientRuns` state what holds of every run, for arbitrary splits of the input,
would-block points, errors, ends of file and partial writes, `HeaderVerdict` and `ClientSteps` what
single steps make of any input, and `KeptAlive` and `KeptOption` what the keep-alive decision is
and what it means for a response and for a session. `EndToEnd` puts both machines together.
`Dispatcher` and `DispatchSignals` are one round of the event dispatcher.

**Smaller parts.** `MsgDepends` and `MsgLoader` (dependency loading and listing), `FullText` (the
concatenated text and how it is split again), `FixedSize` and `ConstantSize` (the fixed-size
analyses against the wire format) and `PackageClosure` (the recursive dependencies of packages).
`Common`, `Division`, `DecimalText`, `TextSearch` and `Graphs` hold what several modules share.

Where a promised property is false of the code as written, the code is kept, and the property is
proved to hold exactly under a stated condition:

- The pattern compression treats the digits 9 of an array length as letters, so a fixed-length
  array of simple values whose length contains "99" raises or loses bytes when it is written, and
  raises when it is read, unless it is a byte array (`SerializeProof.SerializeWritesWireIff`,
  `RoundTrip.DeserializeReadsWireIff`, `StructPattern.NinetyNineBecomesTwentyNine`).
- Struct member names are encoded when printed and never decoded (`XmlRoundTrip.RenamedSameIff`,
  `XmlRoundTrip.AmpersandName`).
- A date-time whose year has fewer than four characters runs on into the month
  (`XmlNumbers.ScanPrintTmIff`, `XmlMisread.RoundTripIff`, `XmlRoundTrip.CommonYearMisread`).
- A server connection that is not kept alive is dropped at the first write, complete or not
  (`KeptAlive.DeliveredIffKept`, `KeptOption.LivesByOption`, `KeptAlive.OldVersionLoses`), which a
  uri can bring about (`EndToEnd.RequestKeptIff`, `EndToEnd.ClosingUri`), and a client that is not
  kept open never succeeds (`ClientRuns.NotKeptOpenFails`).
- A client retry sends again only the last piece of the request, which is the whole request exactly
  when no write took a part of it (`ClientRuns.CallConserves`, `ClientRuns.TailOnly`).
- The full text is split right exactly when no text has a line of eighty '=' in the wrong place
  (`FullText.FullTextExactIff`, `FullText.RuleRejected`).
- `get_message_fixed_size` counts an array of messages once (`FixedSize.MessageSizes`).
- Deserializing changes times that are not canonical (`RoundTrip.SerializeThenDeserialize`,
  `RoundTrip.LateTimeChanges`).

In one place the code and its interface disagree, and the model follows the code: the base64
encoder takes a line-end argument, ignores it and always writes "\n".

`dafny verify dfyconfig.toml` checks everything. Many proofs hide definitions they do not need with
`hide`, which only takes facts away from the solver.

## Model

| member | source | states |
|---|---|---|
| `StructPattern.ReducePattern` | src/genpy/src/genpy/generate_struct.py:64-90 | the loop over `prev`, `count` and the output computes `Reduce` |
| `StructPattern.ReduceKeepsLetters` | src/genpy/src/genpy/generate_struct.py:64-90 | for every letters-only pattern, expanding the compressed pattern gives the pattern back |
| `StructPattern.ReduceCounted` | src/genpy/src/genpy/generate_struct.py:64-90 | for a pattern that is a count and a letter, which count the compressed pattern still has |
| `StructPattern.ReduceKeepsCountIff` | src/genpy/src/genpy/generate_struct.py:64-90 | that count is the original one exactly when its decimal text has no two adjacent nines |
| `StructPattern.UnformattedKept` | src/genpy/src/genpy/generate_struct.py:64-90 | a pattern that is yet to be formatted is left alone |
| `StructPattern.NinetyNineBecomesTwentyNine` | src/genpy/src/genpy/generate_struct.py:64-90 | the concrete failing case: 99 elements are packed as 29 |
| `WireTypes.UnpackPackCode` | src/genpy/src/genpy/base.py:36-53 | unpacking the little-endian bytes of a packed value gives the value, for every code and value that fits |
| `WireBytes.PackCodeAt` | src/genpy/src/genpy/generate_struct.py:113-130 | byte k of a packed value, least significant first, is its k-th digit in base 256; negative values are in two's complement |
| `WireBytes.WireLengthBytes` | src/genpy/src/genpy/generator.py:369-389 | a length prefix is four such bytes |
| `WireBytes.SixteenBits` | src/genpy/src/genpy/generate_struct.py:113-130 | the concrete case: in sixteen bits 1 is [1, 0] and -2 is [254, 255] |
| `WireBytes.NarrowRanges` | src/genpy/src/genpy/base.py:36-53 | the values of the 8- and 16-bit types, signed and unsigned, and of bool |
| `WireBytes.WideRanges` | src/genpy/src/genpy/base.py:36-53 | the values of the wider types |
| `WireBytes.ClockOnWire` | src/genmsg/src/genmsg/msgs.py:332-334 | a time is its seconds and then its nanoseconds, unsigned; a duration likewise, signed |
| `RoundTrip.MixedWritten` | src/genpy/src/genpy/generator.py:369-689 | the concrete case: the bytes that the emitted code writes for a number, a string and an array |
| `Generator.SerializerGenerator.PushContext` | src/genpy/src/genpy/generator.py:344-352 | pushes the current context and replaces it |
| `Generator.SerializerGenerator.PopContext` | src/genpy/src/genpy/generator.py:354-361 | restores the last pushed context |
| `Generator.SerializerGenerator.NextVar` | src/genpy/src/genpy/generator.py:334-338 | a new `_v` variable each time |
| `Generator.SerializerGenerator.ChunkRun` | src/genpy/src/genpy/generator.py:597-627 | the stepping loop over a run of simple fields emits its batches |
| `Generator.SerializerGenerator.ArrayElement` | src/genpy/src/genpy/generator.py:528-551 | the element code of an array, under a pushed context that is popped again; the loop variable is named by the stack depth |
| `Generator.SerializerGenerator.Complex` | src/genpy/src/genpy/generator.py:553-595 | the code for a field that is not simple, with the context stack as it was |
| `Generator.SerializerGenerator.Fields` | src/genpy/src/genpy/generator.py:650-670 | the `curr` loop: runs of simple fields in batches, other fields one by one |
| `Generator.SerializerGenerator.Serializer` | src/genpy/src/genpy/generator.py:629-670 | the code for a whole field list; only serializing an empty one gives `pass` |
| `Generator.SerializerGenerator.SerializeFn` | src/genpy/src/genpy/generator.py:672-689 | the body of `serialize` for the flattened specification |
| `Generator.SerializerGenerator.DeserializeFn` | src/genpy/src/genpy/generator.py:691-724 | the body of `deserialize`: missing sub-objects, flattened fields, canonical times |
| `TreeLaws.FlattenWire` | src/genpy/src/genpy/generator.py:174-198 | flattening keeps which messages are well typed and the bytes they stand for |
| `TreeLaws.FlattenDistinct` | src/genpy/src/genpy/generator.py:174-198 | flattening a duplicate-free specification never makes two fields share a path |
| `TreeLaws.FlattenNamesDistinct` | src/genpy/src/genpy/generator.py:174-198 | nor a dotted name |
| `TreeLaws.ChunksPartition` | src/genpy/src/genpy/generator.py:646-670 | the batches are the fields in order, 1 to 255 at a time, with one call for each |
| `TreeLaws.BatchCount` | src/genpy/src/genpy/generator.py:646-670 | there are as few batches as it takes |
| `PackLaws.PackByCodes` | src/genpy/src/genpy/generate_struct.py:114-130 | packing under a compressed pattern is packing one value per letter of the plain pattern |
| `PackLaws.UnpackPacked` | src/genpy/src/genpy/generate_struct.py:132-150 | unpacking what was packed under the same pattern gives the values back |
| `FillLaws.NewObjectShaped` | src/genpy/src/genpy/generator.py:133-172 | a newly constructed message object has every attribute its class needs |
| `NewMessage.NewObjectFresh` | src/genpy/src/genpy/generator.py:133-172 | it is well typed, holds byte arrays as byte strings, and is all zeros on the wire |
| `FillLaws.FillFlatten` | src/genpy/src/genpy/generator.py:174-198 | assigning the flattened fields one by one builds the same object as assigning the nested ones |
| `WrittenBytes.FlattenWritten` | src/genpy/src/genpy/generator.py:174-198 | flattening does not change what is written, exceptions and lost bytes included |
| `WrittenBytes.WrittenIsWireIff` | src/genpy/src/genpy/generator.py:391-551 | what is written is the reference wire image exactly when every fixed-length array in the message has a safe length |
| `SerializeProof.SerializeWrites` | src/genpy/src/genpy/generator.py:369-689 | the emitted `serialize` code on every well-typed message, whatever the other variables hold: it appends the written bytes, or raises |
| `SerializeProof.SerializeWritesWireIff` | src/genpy/src/genpy/generator.py:369-689 | it appends exactly the field-by-field wire image if and only if every array in the message has a safe length |
| `SerializeProof.SerializeWritesWire` | src/genpy/src/genpy/generator.py:369-689 | for a specification with safe lengths it does so on every message |
| `RoundTrip.DeserializeReadsWire` | src/genpy/src/genpy/generator.py:369-724 | the emitted `deserialize` code on a wire image whose arrays are safe to read, in any object of the class: the message comes back and `end` is the number of bytes, although nested loops share `i`, `length`, `start`, `end` and `_x` |
| `RoundTrip.DeserializeReadsWireIff` | src/genpy/src/genpy/generator.py:369-724 | it succeeds on a wire image if and only if no fixed-length array of simple values that are not bytes, wherever one is present, has an unsafe length; else it raises |
| `DeserializeFails.FailSimpleArray` | src/genpy/src/genpy/generator.py:502-516 | such an array raises: `end` advances by the full size, and the compressed format stands for fewer bytes |
| `RoundTrip.NinetyNineBytesRead` | src/genpy/src/genpy/generator.py:438-441 | the two sides differ: a fixed byte array of 99 is safe to read and not to write, an int32 array of 99 neither |
| `RoundTrip.CanonFieldsIff` | src/genpy/src/genpy/rostime.py:42-47 | canonicalizing leaves the top-level times alone exactly when they are canonical |
| `RoundTrip.CanonKeepsTime` | src/genpy/src/genpy/rostime.py:42-47 | canonicalizing keeps the total time and every other attribute |
| `RoundTrip.CanonFieldsAt` | src/genpy/src/genpy/generator.py:691-724 | each top-level time of the message read back is canonicalized, once |
| `RoundTrip.SerializeThenDeserialize` | src/genpy/src/genpy/generator.py:369-724 | serialize, then deserialize: all bytes are read, and the message comes back exactly when its top-level times are canonical |
| `AnyBytes.BoolFromByte` | src/genpy/src/genpy/generator.py:597-627 | a bool read from any byte is true unless the byte is zero |
| `AnyBytes.BoolsFromBytes` | src/genpy/src/genpy/generator.py:502-519 | so is each element of an array of bools |
| `AnyBytes.CutString` | src/genpy/src/genpy/generator.py:438-453 | a string cut off by the end of the input is taken as far as it goes, without an exception |
| `RoundTrip.LateTimeChanges` | src/genpy/src/genpy/rostime.py:42-47 | the concrete failing case: a time of 1000000000 nanoseconds is written and read without an exception and comes back as one second |
| `RoundTrip.UnsafeLosesBytes` | src/genpy/src/genpy/generator.py:391-551 | a message with an unsafe array length raises or comes out shorter than its wire image |
| `RoundTrip.NormSlotsIff` | src/genpy/src/genpy/generator.py:438-453 | reading back changes a message only by holding byte arrays as byte strings, and exactly when one was a list |
| `RoundTrip.SameValueComesBack` | src/genpy/src/genpy/generator.py:369-724 | with canonical times and byte strings the very same value comes back in a new object |
| `XmlText.NextTagIsLoop` | src/robotrpcpp/src/RobotRpcUtil.cpp:142-160 | the pointer loop computes `NextTagIs`: white space is skipped, and only a match moves the offset |
| `XmlText.GetNextTagLoop` | src/robotrpcpp/src/RobotRpcUtil.cpp:164-187 | the loop computes `GetNextTag` |
| `XmlText.DecodeEncode` | src/robotrpcpp/src/RobotRpcUtil.cpp:200-261 | decoding an encoded text gives it back, for every text |
| `XmlText.Entities` | src/robotrpcpp/src/RobotRpcUtil.cpp:190-261 | the five entities literally, both ways; every other character stands for itself |
| `XmlText.StrayAmpersand` | src/robotrpcpp/src/RobotRpcUtil.cpp:200-232 | an ampersand before anything else stands for itself |
| `XmlText.EncodeInjective` | src/robotrpcpp/src/RobotRpcUtil.cpp:237-261 | different texts have different encodings |
| `XmlText.EncodeClean` | src/robotrpcpp/src/RobotRpcUtil.cpp:237-261 | encoded text has no '<', '>' or quotes and is never shorter than the text |
| `XmlText.XmlDecode` | src/robotrpcpp/src/RobotRpcUtil.cpp:200-232 | the `iAmp` loop computes `Decode`, which never lengthens, and cannot step past the end on any input |
| `XmlText.XmlEncode` | src/robotrpcpp/src/RobotRpcUtil.cpp:237-261 | the `iRep` loop computes `Encode` |
| `XmlText.Decode` | src/robotrpcpp/src/RobotRpcUtil.cpp:200-232 | a decoded text is never longer than the encoded one |
| `Base64.DecodeEncode` | src/robotrpcpp/include/rpcpp/base64.h:156-349 | decoding an encoding gives the bytes back, with the fail bit set exactly for positive multiples of 54 bytes |
| `Base64Table.AlphabetAt` | src/robotrpcpp/include/rpcpp/base64.h:19-22 | sextet n is written as character n of the alphabet |
| `Base64Table.TypeByTable` | src/robotrpcpp/include/rpcpp/base64.h:353-374 | a character is read as its place in the alphabet; every other but '=' is foreign |
| `Base64Table.SameBits` | src/robotrpcpp/include/rpcpp/base64.h:156-211 | four sextets are the twenty-four bits of three bytes, in order |
| `Base64Table.Vectors` | src/robotrpcpp/include/rpcpp/base64.h:156-211 | the test vectors of RFC 4648 for one, two, three and six bytes |
| `Base64Table.CutGroups` | src/robotrpcpp/include/rpcpp/base64.h:215-349 | what becomes of a group that is cut short, status bits included |
| `Base64.EncodeLength` | src/robotrpcpp/include/rpcpp/base64.h:156-211 | the encoded length is 4*ceil(n/3) + floor(n/54) |
| `Base64.EncodeLines` | src/robotrpcpp/include/rpcpp/base64.h:156-211 | no encoded line is longer than 72 characters |
| `Base64.DecodeSignificant` | src/robotrpcpp/include/rpcpp/base64.h:215-374 | the decoded bytes depend only on the alphabet and '=' characters of the text |
| `Base64.Put` | src/robotrpcpp/include/rpcpp/base64.h:156-211 | the encoding loop with its `line_octets` counter computes `Encode` |
| `Base64.Get` | src/robotrpcpp/include/rpcpp/base64.h:215-349 | the decoding loop over the iterators computes `Decode`, status bits included |
| `XmlNumbers.StrtolPrinted` | src/robotrpcpp/src/XmlRpcValue.cpp:308-333 | a printed 32-bit integer before a tag is read back, and the offset ends at the tag |
| `XmlForms.StrtolReads` | src/robotrpcpp/src/XmlRpcValue.cpp:282-333 | blanks, a sign and digits are read as their number, clamped to a long |
| `XmlForms.DateDigits` | src/robotrpcpp/src/XmlRpcValue.cpp:432-445 | the digits of a printed date-time, in the order year, month, day, hour, minute, second |
| `XmlNumbers.ScanPrintTmIff` | src/robotrpcpp/src/XmlRpcValue.cpp:408-445 | scanning a printed date-time gives it back exactly when every number fits its field and the year fills it or is stopped by the sign of the month |
| `XmlForms.DateNeedsT` | src/robotrpcpp/src/XmlRpcValue.cpp:408-429 | a date without the 'T' behind it is refused |
| `XmlNumbers.ThreeDigitYear` | src/robotrpcpp/src/XmlRpcValue.cpp:408-445 | what every date-time with a three-digit year, as `struct tm` has it, is read as: each field takes a digit from the next |
| `XmlValue.FromXml` | src/robotrpcpp/src/XmlRpcValue.cpp:222-262 | on every text the parser stops; success moves the offset on by at least 7 and never past the end, failure restores it |
| `XmlValue.ParseValue` | src/robotrpcpp/src/XmlRpcValue.cpp:222-262 | the parser as it runs, with the offset saved and put back, computes `FromXml` |
| `XmlValue.ParseArray` | src/robotrpcpp/src/XmlRpcValue.cpp:491-505 | the array loop computes the list of values up to the first that fails |
| `XmlValue.ParseStruct` | src/robotrpcpp/src/XmlRpcValue.cpp:528-548 | the member loop builds the map; one bad value fails the struct |
| `XmlValue.PrintValue` | src/robotrpcpp/src/XmlRpcValue.cpp:265-279 | printing by type computes `ToXml` |
| `XmlValue.PrintScalar` | src/robotrpcpp/src/XmlRpcValue.cpp:297-305 | a scalar is appended piece by piece between its tags |
| `XmlValue.PrintString` | src/robotrpcpp/src/XmlRpcValue.cpp:397-405 | a string is encoded and has no type tag |
| `XmlValue.PrintArray` | src/robotrpcpp/src/XmlRpcValue.cpp:510-526 | the append loop over the elements |
| `XmlValue.PrintStruct` | src/robotrpcpp/src/XmlRpcValue.cpp:553-571 | the append loop over the members |
| `XmlRoundTrip.StringTrip` | src/robotrpcpp/src/XmlRpcValue.cpp:385-405 | strings of every kind, blank ones included: the parser falls short of the text it has read, and the search for the end tag finds the right one |
| `XmlForms.IntTagTrip` | src/robotrpcpp/src/XmlRpcValue.cpp:236-237 | in any surrounding text, an integer in the other tag is read, up to its end |
| `XmlForms.IntForms` | src/robotrpcpp/src/XmlRpcValue.cpp:308-321 | so is either tag with blanks before it and before the number, and with a sign |
| `XmlForms.DoubleForms` | src/robotrpcpp/src/XmlRpcValue.cpp:336-369 | and a double with blanks |
| `XmlForms.StringTagTrip` | src/robotrpcpp/src/XmlRpcValue.cpp:240-241 | a string in its optional tag is read, up to its end |
| `XmlForms.BooleanForms` | src/robotrpcpp/src/XmlRpcValue.cpp:282-295 | a boolean is 0 or 1; any other number is refused |
| `XmlForms.UnknownRefused` | src/robotrpcpp/src/XmlRpcValue.cpp:234-262 | a value with any other type tag is refused, and the offset is put back |
| `XmlForms.NoNumberRefused` | src/robotrpcpp/src/XmlRpcValue.cpp:308-315 | so is a number that does not start like one |
| `XmlForms.BlanksBefore` | src/robotrpcpp/src/RobotRpcUtil.cpp:142-160 | a value behind blanks is read as if there were none |
| `XmlForms.OpenTag` | src/robotrpcpp/src/RobotRpcUtil.cpp:164-187 | a tag that is never closed ends before a NUL |
| `XmlForms.FirstWins` | src/robotrpcpp/src/XmlRpcValue.cpp:528-548 | of two struct members with one name the first is kept |
| `XmlRoundTrip.TimeTripIff` | src/robotrpcpp/src/XmlRpcValue.cpp:408-445 | in any surrounding text a date-time comes back exactly when it is readable |
| `XmlRoundTrip.CommonYearMisread` | src/robotrpcpp/src/XmlRpcValue.cpp:408-445 | the concrete failing case: 15 January 2024 comes back as month 1 and day 5 of the year 1240 |
| `XmlRoundTrip.RoundTrip` | src/robotrpcpp/src/XmlRpcValue.cpp:222-571 | in any surrounding text, parsing a printed value succeeds, stops exactly at its end and gives the value with member names encoded |
| `XmlMisread.Misread` | src/robotrpcpp/src/XmlRpcValue.cpp:222-571 | a value that holds, at any depth, a date-time that is not readable is rejected or taken for another value, whatever follows |
| `XmlMisread.RoundTripIff` | src/robotrpcpp/src/XmlRpcValue.cpp:222-571 | in any surrounding text a value comes back with its member names encoded, and the parser stops at its end, if and only if every date-time in it is readable |
| `XmlRoundTrip.StructKeepsMembers` | src/robotrpcpp/src/XmlRpcValue.cpp:528-571 | the struct read back is an ordered map with exactly the renamed members: none is lost or merged |
| `XmlRoundTrip.RenamedSameIff` | src/robotrpcpp/src/XmlRpcValue.cpp:528-571 | the value itself comes back exactly when no member name, at any depth, has one of the five entity characters |
| `XmlRoundTrip.AmpersandName` | src/robotrpcpp/src/XmlRpcValue.cpp:528-571 | the concrete failing case: a member "a&b" comes back as "a&amp;b" |
| `RpcCall.GenerateBody` | src/robotrpcpp/src/RobotRpcClient.cpp:281-308 | appending builds the request body |
| `RpcCall.ParseRequestLoop` | src/robotrpcpp/src/RobotRpcServerConnection.cpp:252-271 | the parameter loop ends on every input and computes `ParseRequest` |
| `RpcCall.RequestTrip` | src/robotrpcpp/src/RobotRpcClient.cpp:281-308 | the server reads the client's method name and parameters in order; a value that is not an array is one parameter, no parameters leave them invalid |
| `RpcCall.NameReadIff` | src/robotrpcpp/src/RobotRpcClient.cpp:281-308 | the method name is read right exactly when it does not contain its own end tag |
| `RpcCall.ReceivedIs` | src/robotrpcpp/src/RobotRpcClient.cpp:281-308 | what the server receives: nothing for no parameters, one for a value that is no array, else each element in order |
| `RpcCall.AnswerTrip` | src/robotrpcpp/src/RobotRpcServerConnection.cpp:228-249 | what the client reads, from the outcome alone: a thrown fault as a fault struct with its code and text, an unknown name as fault -1 with its text, a result as a value without the fault flag |
| `RpcForms.NoName` | src/robotrpcpp/src/RobotRpcServerConnection.cpp:252-271 | without a method name the parameters are not looked at |
| `RpcForms.NoAnswer` | src/robotrpcpp/src/RobotRpcClient.cpp:490-518 | a body without the response tag, or with neither parameters nor a fault, is no answer |
| `RpcForms.FaultAfterParams` | src/robotrpcpp/src/RobotRpcClient.cpp:490-518 | a fault behind an opening tag for parameters is read as a fault |
| `RpcCall.ResponseTrip` | src/robotrpcpp/src/RobotRpcServerConnection.cpp:341-363 | a result of any printable value comes back, up to name encoding |
| `RpcCall.FaultTrip` | src/robotrpcpp/src/RobotRpcServerConnection.cpp:388-404 | a fault value comes back with the fault flag set |
| `HttpFrame.ScanHeader` | src/robotrpcpp/src/RobotRpcServerConnection.cpp:96-105 | the server's pointer loop finds the marks of `MarksOf` |
| `HttpFrame.ScanClientHeader` | src/robotrpcpp/src/RobotRpcClient.cpp:405-412 | the client's loop finds the same body and length marks |
| `HttpFrame.FramedPrefix` | src/robotrpcpp/src/RobotRpcServerConnection.cpp:96-135 | for every framed message and every prefix: either no header end is found yet, or the same body start and Content-length as in the whole message |
| `HeaderMarks.MarksFound` | src/robotrpcpp/src/RobotRpcServerConnection.cpp:96-105 | on every text: the body starts after the first header end, and length and option are the last ones named before it |
| `HttpFrame.NoCaseIff` | src/robotrpcpp/src/RobotRpcServerConnection.cpp:98-101 | a field name is found in any mixture of cases |
| `HttpFrame.FramedForms` | src/robotrpcpp/src/RobotRpcServerConnection.cpp:96-135 | calm lines, the length field in any case, a length, either header end and a body make a framed message |
| `HeaderVerdict.ServerVerdict` | src/robotrpcpp/src/RobotRpcServerConnection.cpp:107-135 | on any header: the server goes on exactly if the last length named fits an int, and remembers it |
| `HeaderVerdict.ClientVerdict` | src/robotrpcpp/src/RobotRpcClient.cpp:415-447 | on any header: the client goes on exactly if the last length named, cut to an int, is positive, and closes otherwise |
| `HttpLines.RequestLines` | src/robotrpcpp/src/RobotRpcClient.cpp:318-337 | a request is its request line, agent, host, type, length, an empty line and the body |
| `HttpLines.ResponseLines` | src/robotrpcpp/src/RobotRpcServerConnection.cpp:366-385 | a response is its status, server, type, length, an empty line and the body |
| `HttpFrame.PostFramed` | src/robotrpcpp/src/RobotRpcClient.cpp:318-337 | every generated request is framed with exactly its body |
| `HttpFrame.OkFramed` | src/robotrpcpp/src/RobotRpcServerConnection.cpp:366-385 | every generated response is framed with exactly its body |
| `SocketIo.NbReadLoop` | src/robotrpcpp/src/RobotRpcSocket.cpp:256-295 | any sequence of chunks is appended in order; an error or an overlong text fails |
| `SocketIo.NbWrite` | src/robotrpcpp/src/RobotRpcSocket.cpp:297-328 | what is sent followed by what is left is what was left before |
| `SocketIo.TakenIs` | src/robotrpcpp/src/RobotRpcSocket.cpp:297-328 | a write takes all that the calls offer to take, or everything |
| `SocketIo.NbWriteLoop` | src/robotrpcpp/src/RobotRpcSocket.cpp:297-328 | the loop over partial writes computes `NbWrite` |
| `ServerConnection.Handle` | src/robotrpcpp/src/RobotRpcServerConnection.cpp:62-76 | at every event boundary of a live connection a response is pending exactly in the writing state, and not all of it is written |
| `ServerConnection.Connection.HandleEvent` | src/robotrpcpp/src/RobotRpcServerConnection.cpp:62-76 | the object's fields after an event are those of `Handle`, and so is what it read, sent and executed |
| `ServerConnection.Connection.DoReadHeader` | src/robotrpcpp/src/RobotRpcServerConnection.cpp:79-157 | reading the header, complete or not |
| `ServerConnection.Connection.DoReadRequest` | src/robotrpcpp/src/RobotRpcServerConnection.cpp:159-194 | reading the request up to its length |
| `ServerConnection.Connection.DoWriteResponse` | src/robotrpcpp/src/RobotRpcServerConnection.cpp:197-225 | executing the request only when there is no response yet, and writing |
| `ServerRuns.RunConserves` | src/robotrpcpp/src/RobotRpcServerConnection.cpp:197-225 | in every run, whether the connection lives or was dropped, the bytes sent followed by the unsent part are the responses to the executed requests |
| `ServerRuns.ReadingStep` | src/robotrpcpp/src/RobotRpcServerConnection.cpp:62-225 | every event leaves the state that the received bytes determine; before the message is complete the connection lives on exactly if its last read was cut off by neither an error nor an end of file |
| `ServerRuns.StreamRun` | src/robotrpcpp/src/RobotRpcServerConnection.cpp:62-225 | however a message is split over reads and events, and whatever errors and ends of file there are: until it is complete nothing is executed or sent, and when it is, it is executed at most once, and exactly once without these |
| `ServerRuns.MessageRun` | src/robotrpcpp/src/RobotRpcServerConnection.cpp:62-225 | over quiet events the state is determined by the bytes received, and the complete message is executed exactly once |
| `ServerRuns.MidMessageEnds` | src/robotrpcpp/src/RobotRpcServerConnection.cpp:107-116 | an error or an end of file in mid-message executes nothing and sends nothing |
| `ServerRuns.NextMessageLost` | src/robotrpcpp/src/RobotRpcServerConnection.cpp:197-225 | bytes of a next message that come with the end of the first are executed as part of its body and are gone when its response has been written |
| `KeptAlive.DecidedByHeader` | src/robotrpcpp/src/RobotRpcServerConnection.cpp:142-151 | the keep-alive decision is the header's, unless HTTP/1.0 is named in the body alone |
| `KeptAlive.LivesIffKept` | src/robotrpcpp/src/RobotRpcServerConnection.cpp:197-225 | over any smooth events the connection lives until the message is complete, and from then on exactly if it is kept alive |
| `KeptAlive.DeliveredIffKept` | src/robotrpcpp/src/RobotRpcServerConnection.cpp:197-225 | no byte of the response is ever lost, whatever the socket takes at a time, exactly if the connection is kept alive; else it dies with the first event that writes, having sent a prefix |
| `KeptOption.LivesByOption` | src/robotrpcpp/src/RobotRpcServerConnection.cpp:142-151 | from the text alone: without HTTP/1.0 anywhere the connection lives exactly if its last connection option does not start with close; with HTTP/1.0 in the header exactly if it starts with keep-alive |
| `KeptOption.DeliveredByOption` | src/robotrpcpp/src/RobotRpcServerConnection.cpp:142-225 | and exactly then no byte of the response is ever lost |
| `KeptAlive.WritingStep` | src/robotrpcpp/src/RobotRpcServerConnection.cpp:197-225 | one event of writing: what is sent, when the connection survives, and when it waits again |
| `KeptAlive.OversizedDropped` | src/robotrpcpp/src/RobotRpcServerConnection.cpp:366-385 | a result too long to be sent is executed, and the connection dropped with nothing sent |
| `KeptAlive.OldVersionLoses` | src/robotrpcpp/src/RobotRpcServerConnection.cpp:142-151 | the concrete failing case: an HTTP/1.0 request without a connection option, after which any waiting connection can lose part of the response |
| `KeptAlive.OneExchange` | src/robotrpcpp/src/RobotRpcServerConnection.cpp:62-225 | a connection that receives a message asking for it to be kept alive, and whose socket takes the whole response, is alive and waits for the next message |
| `KeptAlive.Session` | src/robotrpcpp/src/RobotRpcServerConnection.cpp:62-225 | if every message asks for the connection to be kept alive and the client waits for each response, every message is executed once, in order, and answered in full, and the connection lives on |
| `ClientConnection.RpcClient.DoSetupConnection` | src/robotrpcpp/src/RobotRpcClient.cpp:223-244 | closes what failed or is at end of file, connects if needed, and prepares to write |
| `ClientConnection.RpcClient.DoWriteRequest` | src/robotrpcpp/src/RobotRpcClient.cpp:339-367 | writes, and after a partial write drops the written part of the buffer |
| `ClientConnection.RpcClient.DoReadHeader` | src/robotrpcpp/src/RobotRpcClient.cpp:371-448 | reads the header, or retries on a new connection if nothing was read |
| `ClientConnection.RpcClient.DoRetry` | src/robotrpcpp/src/RobotRpcClient.cpp:375-395 | one retry for a kept-open connection, and closing otherwise |
| `ClientConnection.RpcClient.DoReadResponse` | src/robotrpcpp/src/RobotRpcClient.cpp:451-486 | reads the response up to its length and comes to rest |
| `ClientConnection.RpcClient.HandleEvent` | src/robotrpcpp/src/RobotRpcClient.cpp:192-219 | the object's fields after an event are those of `Handle` |
| `ClientConnection.RpcClient.Call` | src/robotrpcpp/src/RobotRpcClient.cpp:101-134 | a blocking call computes `Execute` |
| `ClientRuns.EveryCallStartsFreshOrIdle` | src/robotrpcpp/src/RobotRpcClient.cpp:223-244 | over any sequence of calls and failures, a call starts on a new connection or on an idle one not at end of file |
| `ClientRuns.SuccessMeansComplete` | src/robotrpcpp/src/RobotRpcClient.cpp:101-134 | a call succeeds only from rest, with at least Content-length response bytes, and returns what they parse to |
| `ClientRuns.AtMostOneRetry` | src/robotrpcpp/src/RobotRpcClient.cpp:371-395 | a call makes at most one connection more than the one it starts with |
| `ClientSteps.RetriesIff` | src/robotrpcpp/src/RobotRpcClient.cpp:371-395 | another connection is made exactly if not a byte of the header came, the client is kept open, it is the first attempt and connecting succeeds |
| `ClientSteps.ResponseVerdict` | src/robotrpcpp/src/RobotRpcClient.cpp:451-486 | the response is complete as soon as it has its length; before that an error or an end of file closes the connection |
| `ClientSteps.ExceptionEnds` | src/robotrpcpp/src/RobotRpcDispatch.cpp:155-171 | an exception takes the client off the dispatcher and closes it unless kept open |
| `ClientSteps.UnconnectedFails` | src/robotrpcpp/src/RobotRpcClient.cpp:223-244 | a call that cannot connect fails and sends nothing |
| `ClientSteps.IdleReused` | src/robotrpcpp/src/RobotRpcClient.cpp:223-244 | an idle connection not at end of file is used again |
| `ClientRuns.CallConserves` | src/robotrpcpp/src/RobotRpcClient.cpp:339-367 | on the first connection sent and unsent bytes make up the request; after a retry the first connection has carried all of it and the second carries the last piece, which is the whole request exactly when no write of the first attempt took a part of it |
| `ClientRuns.TailOnly` | src/robotrpcpp/src/RobotRpcClient.cpp:371-395 | the concrete failing case, for every message of two bytes or more: the second connection carries all but the first byte |
| `ClientRuns.NotKeptOpenFails` | src/robotrpcpp/src/RobotRpcDispatch.cpp:163-171 | a client that is not kept open is closed before its answer is looked at, so its calls never succeed |
| `ClientRuns.ResponseRun` | src/robotrpcpp/src/RobotRpcClient.cpp:371-486 | however the response is split over reads and events, the client comes to rest holding exactly its body |
| `ClientRuns.CallReads` | src/robotrpcpp/src/RobotRpcClient.cpp:101-134 | a call that receives a whole response succeeds exactly when its body parses, having sent its request once and in full |
| `EndToEnd.ServerServes` | src/robotrpcpp/src/RobotRpcServerConnection.cpp:62-249 | a generated request, however it arrives, is executed once with the client's method name and parameters, and what is sent and pending is the response to it |
| `EndToEnd.RequestKeptIff` | src/robotrpcpp/src/RobotRpcServerConnection.cpp:142-225 | a generated request that nowhere mentions HTTP/1.0 leaves the connection alive, and loses nothing of the response, exactly if host and uri put no closing option into its header; without blanks they do not |
| `EndToEnd.ClosingUri` | src/robotrpcpp/src/RobotRpcServerConnection.cpp:142-151 | the concrete failing case: a uri that names the option |
| `EndToEnd.ClientReturns` | src/robotrpcpp/src/RobotRpcClient.cpp:101-134 | a call that receives the server's response tells the caller the outcome of the method: the fault struct and flag, or the result with names encoded |
| `EndToEnd.CallThrough` | src/robotrpcpp/src/RobotRpcClient.cpp:101-134 | both machines together: if the server receives what the client writes, the client what the server sends, and the server has answered, then it has executed this call, once, and the client tells the caller the method's outcome |
| `Dispatcher.Dispatch.AddSource` | src/robotrpcpp/src/RobotRpcDispatch.cpp:48-51 | appends the source |
| `Dispatcher.Dispatch.RemoveSource` | src/robotrpcpp/src/RobotRpcDispatch.cpp:55-63 | the search loop removes the first entry of the source |
| `Dispatcher.Dispatch.SetSourceEvents` | src/robotrpcpp/src/RobotRpcDispatch.cpp:68-77 | the search loop sets the mask of the first entry of the source |
| `Dispatcher.Dispatch.DoTurn` | src/robotrpcpp/src/RobotRpcDispatch.cpp:135-172 | one source's turn: requested and signalled events are handled, results are combined, the entry is found again |
| `Dispatcher.Dispatch.Round` | src/robotrpcpp/src/RobotRpcDispatch.cpp:100-172 | one round over the snapshot computes `After` |
| `Dispatcher.RoundNoDuplicates` | src/robotrpcpp/src/RobotRpcDispatch.cpp:100-172 | the list stays free of duplicates through the round |
| `Dispatcher.RoundDecides` | src/robotrpcpp/src/RobotRpcDispatch.cpp:100-172 | a source that is still registered after its handlers gets the AND of their results on its own entry, and a zero removes it |
| `DispatchSignals.RoundBySignals` | src/robotrpcpp/src/RobotRpcDispatch.cpp:135-172 | from mask bits and signals alone: a source gets the AND of the results of exactly the handlers whose events are requested and signalled, zero removes it and closes it once unless kept open, all ones leave it |
| `DispatchSignals.IdleHandlers` | src/robotrpcpp/src/RobotRpcDispatch.cpp:135-172 | with handlers that act on nothing only their results count |
| `DispatchSignals.OneEvent` | src/robotrpcpp/src/RobotRpcDispatch.cpp:135-172 | with one requested event signalled its handler alone decides |
| `DispatchSignals.UnsignalledKeepsMask` | src/robotrpcpp/src/RobotRpcDispatch.cpp:135-172 | a source for which each event is not requested or not signalled keeps its mask and is not closed |
| `DispatchSignals.FirstOnly` | src/robotrpcpp/src/RobotRpcDispatch.cpp:55-77 | removing and setting touch the first entry of a source alone, and keep the order |
| `Dispatcher.ClosedOnce` | src/robotrpcpp/src/RobotRpcDispatch.cpp:166-171 | a source is closed exactly once if its handlers leave it registered with a zero mask and not kept open, and never otherwise |
| `MsgLoader.MsgContext.LoadMsgDepends` | src/genmsg/src/genmsg/msg_loader.py:291-331 | loading ends, fails exactly when some type below cannot be found, returns the direct dependencies, and always leaves the table closed and accurate |
| `MsgLoader.MsgContext.GetAllDepends` | src/genmsg/src/genmsg/msg_loader.py:394-402 | the recursive loop computes the list of all dependencies, or the missing key |
| `MsgLoader.LoadedListsReachable` | src/genmsg/src/genmsg/msg_loader.py:394-402 | after loading the list is defined, and its unique form holds exactly the reachable types, each once |
| `MsgDepends.ClosedNeverRaises` | src/genmsg/src/genmsg/msg_loader.py:394-402 | on a closed table the list of all dependencies never raises |
| `MsgDepends.ListedReaches` | src/genmsg/src/genmsg/msg_loader.py:394-402 | the list holds exactly the types reached by following dependencies |
| `MsgDepends.UniqueDeps` | src/genmsg/src/genmsg/gentools.py:124-129 | the loop keeps the first occurrences in order |
| `MsgDepends.UniqueIsPreorder` | src/genmsg/src/genmsg/gentools.py:124-129 | the unique list is the first-visit preorder of the depth-first search, without repetition |
| `FullText.ComputeFullText` | src/genmsg/src/genmsg/gentools.py:131-156 | after loading, the buffer holds the core text and every reachable type's text in that order |
| `FullText.DepsOfAt` | src/genmsg/src/genmsg/gentools.py:131-156 | each type with its own text, in the order of the list |
| `FullText.SplitJoinIff` | src/genpy/src/genpy/dynamic.py:128-131 | splitting recovers the parts exactly when no part but the last has a later line of eighty '=' and the last has no break |
| `FullText.FullTextRoundTripIff` | src/genpy/src/genpy/dynamic.py:57-139 | splitting the full text recovers the core text and every type and text in order, with the old header name replaced in names and texts, exactly when the parts can be split |
| `FullText.FullTextExactIff` | src/genpy/src/genpy/dynamic.py:57-139 | they are recovered unchanged exactly when no name or text has the old header name and the parts can be split |
| `FullText.FullTextExact` | src/genpy/src/genpy/dynamic.py:57-139 | without the old header name and without lines of eighty '=' they are recovered unchanged |
| `FullText.RuleRejected` | src/genpy/src/genpy/dynamic.py:126-139 | the concrete failing case: a core text with a line of eighty '=' is rejected when it is taken apart |
| `FullText.OldHeaderRenewed` | src/genpy/src/genpy/dynamic.py:126-139 | the concrete case: the old header is renamed in the text and in the type |
| `FullText.NoNewline` | src/genpy/src/genpy/dynamic.py:57-75 | a part without a newline loses the last character of its type line |
| `FullText.GenerateDynamic` | src/genpy/src/genpy/dynamic.py:126-139 | the loop over the parts reads one dependency after the other, or rejects the text |
| `FixedSize.PredicatesAgree` | src/gennodejs/src/gennodejs/generate.py:137-157 | the JavaScript predicate is the C++ one and the absence of zero-length arrays |
| `FixedSize.IsFixedLength` | src/gencpp/src/gencpp/__init__.py:128-156 | the two loops compute the C++ predicate |
| `FixedSize.FieldsLength` | src/gencpp/src/gencpp/__init__.py:128-156 | if it holds, every well-typed value has the same computed wire length |
| `FixedSize.FixedMeansConstant` | src/gencpp/src/gencpp/__init__.py:128-156 | so any two values take the same number of bytes |
| `ConstantSize.ConstantIff` | src/gencpp/src/gencpp/__init__.py:128-156 | all values of a type take the same number of bytes if and only if it has no string and no array without a length, except arrays of elements of no size and what arrays of length zero would hold |
| `ConstantSize.FixedIsConstant` | src/gencpp/src/gencpp/__init__.py:128-156 | the C++ predicate implies that condition |
| `ConstantSize.EmptyMessagesConstant` | src/gencpp/src/gencpp/__init__.py:128-156 | and is stricter: an array without a length of empty messages always takes four bytes and is called variable |
| `FixedSize.GetMessageFixedSize` | src/gennodejs/src/gennodejs/generate.py:159-186 | the accumulating loop gives a size exactly for fixed-size messages |
| `FixedSize.MessageSizes` | src/gennodejs/src/gennodejs/generate.py:159-186 | the computed size is never too large, and is the wire length exactly when every array of messages has length one or elements of no size |
| `FixedSize.TypeSizeIsWireSize` | src/gennodejs/src/gennodejs/generate.py:97-107 | the size table agrees with the wire format, time and duration included |
| `FixedSize.PairCountedOnce` | src/gennodejs/src/gennodejs/generate.py:159-186 | an array of two four-byte messages is computed as 4 bytes but takes 8 |
| `PackageClosure.WithRecursiveDependencies` | src/catkin/python/catkin/builder.py:1096-1114 | for any graph, cycles included, the worklist ends with exactly the known packages reachable from the requested names |
| `PackageClosure.DependsIff` | src/catkin/python/catkin/builder.py:1104-1109 | which dependencies count: build, buildtool and run, and test from format 2 on |
| `PackageClosure.ByNameIs` | src/catkin/python/catkin/builder.py:1099 | of packages with one name the last counts |
| `PackageClosure.AddDependencies` | src/catkin/python/catkin/builder.py:1110-1113 | the inner loop adds the known dependencies that are neither taken nor waiting |

## Left out

- Python's `encode('utf-8')` and `decode('utf-8')` around strings: strings are byte sequences.
- Numpy serializers, reserved-word renaming, imports, file output and `strify_message` of genpy.
- `map(bool, ...)` is the list it is in Python 2, and lists and tuples are one kind of value.
- Specifications are trees, not a registration table with names; a cyclic specification has no tree.
- Python references are modelled by owners and paths; a use of an alias whose object was replaced or moved is an error, so a run that does not fail does what Python does.
- SerializeProof.SerializeWrites: does not say what is in the buffer when an exception is raised half way.
- What exactly a value with an unreadable date-time comes back as: only that it is rejected or another value.
- Doubles are their decimal text, because printing and reading them is library code.
- `executeMulticall`, the dispatch to registered methods and `executeNonBlock`: the outcome of a method is a function of its name and parameters.
- The `_executing` flag against nested calls, logging and error messages.
- A keep-alive decision that the header does not make: the server also searches what has come of the body for "HTTP/1.0".
- What a server sends after its response.
- Sockets, polling and addresses: they are arbitrary chunks, outcomes and events given as parameters.
- The dispatcher's end time, `exit` and `clear`: the clock always reads 0.0.
- Handlers that remove sources other than their own during a dispatcher round.
- MsgLoader.MsgContext.LoadMsgDepends: does not model cyclic message types, on which the original does not end.
- Resolving relative type names and array brackets in `load_msg_depends`: field types are already resolved names.
- Parsing of .msg and .srv text, services in `load_depends`, and MD5.
- `generate_dynamic` after the specs are loaded: code generation and the rewriting of names.
- Lisp, EusLisp, JavaScript and C++ text emission, and the rest of catkin.
