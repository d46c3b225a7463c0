# Verified models of the tcp-port analyser

tcp-port captures packets, puts TCP streams back together and decodes the application protocols in
them. This project models the parts whose correctness everything else rests on, and proves what
they promise:

- **TCP reassembly.** `TcpSeq` is the sequence-number comparison, `SegmentWindow` the receive
  window on values, `ReceiveWindow` the ring buffer that implements it in place, `WindowRuns` what
  any run of arrivals and acknowledgements delivers. `NetStream`, `Connection` and `Assembler` are
  the objects above it; `StreamRuns` and `ConnectionRuns` treat their steps and those of the
  handler goroutines as state machines and quantify over every interleaving.
- **The wildcard matcher.** `Wildcard` proves the single loop with last-star backtracking equal to
  the recursive meaning of the pattern.
- **BSON and JSON.** `Bson` and `BsonSkip` specify the decoder and the independent skipper,
  `BsonReader` holds the loops proved against them, `BsonCodec` the encoding, `BsonTheorems` the
  round trip, `BsonValues` what is shown of the other types, `BsonLookup` the look-ups by name,
  `BsonPrinter` the flat printer. `Utf8` is how Go
  reads and writes strings, `JsonPrinter` the printer with an arbitrary map iteration order, `Json` a
  reference reader after RFC 8259, `JsonRoundTrip` their composition, `BsonJson` the way from the
  bytes of a document to the bytes of its text.
- **The Java stream reader.** `JavaStream` specifies the dialect the decoder accepts,
  `JavaDeserializer` is the object with its cursor and handle table. `JavaWriter` is what a writer of
  the protocol puts on the wire and says by it, `JavaRoundTrip` proves that reading gives it back.
  `JavaChains` settles which
  walks over class descriptors end, `JavaEnds` says at every depth of nesting when reading does not
  end or panics, `JavaPlain` is the recursion of the source itself, and `JavaTheorems` compares the
  reading and the skipping path.
- **RESP and WebSocket.** `ByteReader` is a reader that is consumed. `Resp`, `RespReader`,
  `RespTheorems` and `RespPanics` are the RESP readers, their framing and their panics,
  `RedisHandler` the lock-step handler, `WebSocket` the frame reader.

`Bytes`, `Decimal`, `Seqs`, `Tree` and `Wrappers` hold shared definitions.

Wherever the program updates state in place, there is a method proved equal to a function of the
old state, and the theorems are about the function.

`dafny verify dfyconfig.toml` checks everything.

## What the proofs found

- `compareTCPSeq` is not a serial-number comparison where sequence numbers wrap: the two wrap
  branches widen an unsigned difference, so neither can be negative.
  `TcpSeq.CompareIsSerialExactly` gives the exact region, and the window theorems are stated for an
  epoch, a range of non-zero numbers that does not wrap and is shorter than 2^31.
- Gap-freedom of the output is exactly the absence of holes at each acknowledgement
  (`WindowRuns.RunInOrder`); an acknowledgement beyond a lost segment makes the window release what
  lies behind the hole.
- `bsonToMap` gives a value for every byte sequence but those in which a regular expression element
  lacks the terminator of its pattern (`BsonTheorems.DecodesExactly`, `BsonTheorems.OpenPatternStops`).
- What `mapToJSON` prints is JSON if and only if every double has a number as its text: the words for
  NaN and the infinities are printed as they are (`JsonRoundTrip.TextReadsBack`,
  `BsonJson.NanIsNoJSON`). Names that are not valid UTF-8 can become equal in the text
  (`JsonRoundTrip.NamesCollide`).
- `skipClassData` and `readClassData` agree on all streams exactly for class chains with legal type
  codes (`JavaTheorems.AgreementExactly`): the skipping path takes any other code for an object.
- Super references can close a cycle of class descriptors. Reading a descriptor still ends, but
  decoding a stream goes on without end if and only if at some depth it comes to a class chain that
  has no end and on which no class has a field or writes its own data
  (`JavaEnds.DecodingEndsExactly`); without end is the recursion, whose stack Go limits, so that the
  process is killed. It ends on every stream whose class chains end (`JavaEnds.ChainsEndDecodingEnds`).
  Reading on a cycle never succeeds; where no class of it takes a byte it does not end, and otherwise
  only because of an object nested in a field (`JavaEnds.CycleEndsExactly`). A stream of twenty bytes
  does the one (`JavaTheorems.SelfSuperNeverEnds`), a cycle that holds an object the other
  (`JavaEnds.NestedNeverEnds`).
- Decoding a stream panics if and only if it comes to a long string whose length takes the cursor
  beyond the signed range (`JavaEnds.DecodingEndsExactly`, `JavaEnds.LongStringPanics`).
- The decoder counts handles from zero, the protocol from 0x7E0000, so no back reference of a usual
  stream is followed (`JavaRoundTrip.ProtocolReferenceFails`). Fields of a class that writes its own
  data are passed over as a block if and only if their first byte is that of a block
  (`JavaRoundTrip.PartReadsExactly`).
- The key filter of Redis commands sees the first argument of a command sent as an array, but the
  second of an inline one (`RedisHandler.KeyOfArray`, `RedisHandler.KeyOfInline`).
- `ReadRESPCommand` panics if and only if the first line announces a negative or too large number of
  elements, or one of the bulk strings reached announces too many bytes
  (`RespPanics.CommandPanicsExactly`, `RespPanics.NullArrayPanics`); `ReadRESPResponse` panics if and
  only if a single pass over its headers reaches one that announces too much
  (`RespPanics.ReplyPanicsExactly`, `RespPanics.HugeBulkPanics`).
- `ReadWebSocketMessage` panics if and only if a complete long-form header has the top bit of its
  length set: the length is then negative and passes the size check (`WebSocket.FramePanicsExactly`).
- When the reply to a shown Redis command cannot be read, the command is sent to the printer twice,
  once in the loop and once after it. On any two streams this happens exactly when the loop stops at
  such a command (`RedisHandler.HandleMeaning`); on well-formed streams exactly when some command
  that passes the filters has no reply (`RedisHandler.SentTwiceExactly`).

## Model

| member | source | states |
|---|---|---|
| TcpSeq.CompareIsSerialExactly | tcpport/assembler.go:322-329 | away from distance 2^31, the sign is the comparison of section 3.2 of RFC 1982 if and only if the pair is outside the region where only the second number has wrapped and is not (0, 2^32-1) |
| TcpSeq.CompareAtHalfDistance | tcpport/assembler.go:322-329 | at distance 2^31 each number compares below the other |
| TcpSeq.WrapCounterexample | tcpport/assembler.go:323-327 | concrete pairs on which the wrap branches are wrong |
| TcpSeq.CompareInEpoch | tcpport/assembler.go:322-329 | within an epoch the comparison is integer subtraction, hence the strict order the window sorts by |
| ReceiveWindow.ReceiveWindow.constructor | tcpport/assembler.go:248-250 | a new ring stands for the empty window |
| ReceiveWindow.ReceiveWindow.Insert | tcpport/assembler.go:252-279 | the ring afterwards stands for the window with the segment inserted; free slots stay nil |
| ReceiveWindow.ReceiveWindow.ShiftUp | tcpport/assembler.go:269-274 | the shifting loop moves exactly the segments from idx on, across the end of the array |
| ReceiveWindow.ReceiveWindow.Expand | tcpport/assembler.go:309-320 | doubling keeps the sequence of segments for every rotation of the ring |
| ReceiveWindow.ReceiveWindow.Confirm | tcpport/assembler.go:281-307 | the ring afterwards stands for the window left, and exactly the trimmed segments were sent, in order |
| WindowRuns.FindSlotSorted | tcpport/assembler.go:257-264 | the downward scan finds the one place that keeps the order, or the segment with an equal number |
| WindowRuns.InsertedMeaning | tcpport/assembler.go:252-279 | insertion keeps the buffer strictly sorted and adds exactly a segment that has bytes, is not already delivered and is no repeat |
| WindowRuns.TrimMeaning | tcpport/assembler.go:290-298 | what is left of a released segment is its part from the expected number on |
| WindowRuns.ConfirmedMeaning | tcpport/assembler.go:281-307 | an acknowledgement releases the stream's bytes at exactly the due positions, in increasing order, keeps exactly the segments at or above it, and moves the expected number just past the last byte |
| WindowRuns.ConsecutiveExactly | tcpport/assembler.go:281-307 | one release is consecutive from its base if and only if the buffer has no hole there |
| WindowRuns.RunInOrder | tcpport/assembler.go:252-307 | over every run the output is the stream's bytes at strictly increasing positions and the expected number never falls; it is gap-free if and only if no acknowledgement found a hole |
| WindowRuns.FilledRunIsSlice | tcpport/assembler.go:252-307 | if every acknowledgement finds the buffer filled up to it, the whole output is one slice of the stream that reaches at least the last acknowledgement |
| NetStream.RefillMeaning | tcpport/assembler.go:222-226 | the receive loop of Read keeps the logical stream and ends with a byte to give or with nothing left |
| NetStream.NetStream.AppendPacket | tcpport/assembler.go:201-204 | ignored after Close, otherwise window insertion |
| NetStream.NetStream.ConfirmPacket | tcpport/assembler.go:205-208 | ignored after Close, otherwise a release into the channel, which must be open |
| NetStream.NetStream.Prepend | tcpport/assembler.go:212-219 | the data come first in the next read |
| NetStream.NetStream.Read | tcpport/assembler.go:221-235 | gives the front of what was left over, or else of the first payload that has bytes, as much as the caller's array takes or all of it, and keeps the rest; end of stream exactly when nothing is left |
| NetStream.DiscardAll | tcpport/text.go:40-52 | whatever the schedule of the packets the assembler still handles before it finishes the stream, the loop ends and counts exactly the bytes that were still to come |
| NetStream.Peek | main.go:695-705 | what is seen is the front of the logical stream, which is unchanged: 24 bytes of what was left over, or else of the first payload that has bytes, or all of it if that is less |
| StreamRuns.ReadMeaning | tcpport/assembler.go:221-235 | a read returns the front of the logical stream: at least one byte for a non-empty buffer, or the end |
| StreamRuns.StepTotal | tcpport/assembler.go:201-237 | every step of either side adds to what was consumed, is left over or queued exactly what it releases |
| StreamRuns.Conservation | tcpport/assembler.go:201-237 | over every interleaving from any state the total grows by exactly what the window releases |
| StreamRuns.ConsumedIsReleased | tcpport/assembler.go:201-237 | from a new stream, consumed ++ left over ++ queued equals the delivered stream |
| StreamRuns.ConsumedInOrder | tcpport/assembler.go:201-307 | for every interleaving the handler consumes the sender's bytes at strictly increasing positions, consecutive ones if no acknowledgement found a hole |
| StreamRuns.PeekUnchanged | main.go:695-705 | detection's read and put-back leave consumed bytes, logical stream and window as they were |
| Endpoints.KeyExactly | tcpport/assembler.go:52-60 | two flows have the same key if and only if they join the same two endpoints in either direction |
| Endpoints.ToStringInjective | tcpport/assembler.go:132 | the text of an endpoint determines it |
| Connection.TCPConnection.OnReceive | tcpport/assembler.go:152-173 | the first packet fixes the client; bytes go to the sender's stream and the acknowledgement to the other |
| Connection.TCPConnection.Take | tcpport/assembler.go:66-71 | if and only if by now the first packet's sender and someone else have each sent a FIN or RST, both channels are closed, once |
| Connection.TCPConnection.FlushOlderThan | tcpport/assembler.go:175-179 | both directions end and both channels close |
| Connection.Detect | main.go:695-744 | the connection goes to the first detector that accepts the bytes seen, as many as Peek sees, valid and with the same bytes to read; otherwise both streams are closed to the assembler |
| ConnectionRuns.RunProjects | tcpport/assembler.go:152-186 | in every run of a connection each stream makes exactly the steps projected onto it |
| ConnectionRuns.ReleasedFromStart | tcpport/assembler.go:252-307 | for all inputs nothing is released that did not arrive before and was not acknowledged beyond its first byte since |
| ConnectionRuns.SidesInOrder | tcpport/assembler.go:152-307 | over every run of a connection each side's handler consumes the bytes of that side's endpoint at strictly increasing positions, consecutive ones if no acknowledgement found a hole |
| ConnectionRuns.BytesAreTheSenders | tcpport/assembler.go:152-173 | whatever either handler stream delivers was sent by that side's endpoint and let out by a later acknowledgement of the other endpoint |
| Assembler.TCPAssembler.RetrieveConnection | tcpport/assembler.go:74-84 | returns the registered connection, or registers a new one when allowed, and touches no other |
| Assembler.TCPAssembler.Assemble | tcpport/assembler.go:41-72 | which packets are received by whom, what the connection becomes, and that it leaves the register if and only if by now both sides have sent a FIN or RST; all other connections are untouched; no closed channel is sent to or closed |
| Assembler.TCPAssembler.FlushOlderThan | tcpport/assembler.go:92-107 | exactly the connections not heard of since t are flushed and unregistered |
| Assembler.TCPAssembler.FinishAll | tcpport/assembler.go:109-117 | every registered connection is finished and the register is empty |
| Assembler.Capture | main.go:1186-1206 | after any sequence of packets, flushes and steps of the handlers and one FinishAll, every connection ever created has both channels closed, each of them once |
| Assembler.TCPAssembler.HandlerStep | tcpport/assembler.go:212-237 | a step of one connection's handler leaves the assembler sound and every other connection untouched |
| Assembler.OneLivePerKey | tcpport/assembler.go:74-84 | live connections with the same key are the same connection |
| Assembler.OneFlowPerConnection | tcpport/assembler.go:52-66 | all packets a connection has received join the same two endpoints |
| Wildcard.StarMatches | tcpport/text.go:17-21 | a star matches if and only if some suffix of the text matches the rest of the pattern |
| Wildcard.LaterStarWins | tcpport/text.go:24-27 | going back to an earlier star can never match where staying with the last one does not |
| Wildcard.WildcardMatch | tcpport/text.go:13-37 | true if and only if the recursive definition matches, for all texts and patterns; terminates by the lexicographic measure of last star, retry point and scan index |
| Bson.DecodeElement | mongoport/mongo_protocol.go:422-585 | every element advances and stays within the buffer, so the guard against standing still never fires |
| Bson.DecodeDoc | mongoport/mongo_protocol.go:395-419 | the result is nil exactly for fewer than five bytes |
| BsonReader.BsonToMap | mongoport/mongo_protocol.go:395-419 | the loop computes the specified map and terminates |
| BsonReader.ParseBSONElement | mongoport/mongo_protocol.go:422-585 | the parser computes the specified key, value and position, also for a start at or past the end |
| BsonReader.RebuildArray | mongoport/mongo_protocol.go:475-485 | the loop over decimal keys yields the items up to the first missing index |
| BsonReader.ExtractBSONValue | mongoport/mongo_protocol.go:313-343 | the loop decides the specified search |
| BsonReader.ExtractBSONFirstKey | mongoport/mongo_protocol.go:295-310 | the first key of the document |
| BsonSkip.SkipAgreesExactly | mongoport/mongo_protocol.go:345-381 | on the shared types the skipper ends where the parser ends if and only if the value lies in the buffer |
| BsonCodec.ValueDecodes | mongoport/mongo_protocol.go:442-571 | a nested value encoded anywhere in a buffer decodes to itself and to its last byte |
| BsonCodec.NumberedRebuilds | mongoport/mongo_protocol.go:475-485 | arrays come back from their decimal keys, however many items they have |
| BsonTheorems.DecodeUndoesEncode | mongoport/mongo_protocol.go:395-585 | decoding the encoding of any nested document of null, booleans, both integers, strings, doubles, times, documents and arrays, with anything behind it, gives the same tree |
| BsonLookup.FindsKeys | mongoport/mongo_protocol.go:313-381 | in every well laid document of the eleven shared types, whatever follows it, the search finds a name if and only if it is not empty and a top-level key of the decoded map |
| BsonLookup.FirstKeyIsKey | mongoport/mongo_protocol.go:295-343 | the name read as the command of such a document is a key of the decoded map, and the search finds it |
| BsonLookup.EncodedIsLaid | mongoport/mongo_protocol.go:345-381 | every encoded document is well laid, whatever follows it |
| BsonLookup.FindsDecodedKeys | mongoport/mongo_protocol.go:313-381 | so on encoded documents the search finds exactly the non-empty names of their fields |
| BsonLookup.FirstKeyIsFound | mongoport/mongo_protocol.go:295-343 | the name read as the command of an encoded document is its first key |
| BsonTheorems.DecodesExactly | mongoport/mongo_protocol.go:395-585 | a value is returned if and only if every regular expression element, at any depth, has its pattern's terminator |
| BsonTheorems.DecodesWithoutRegex | mongoport/mongo_protocol.go:395-585 | in particular for all bytes among which 0x0B does not occur |
| BsonValues.ObjectIdShown | mongoport/mongo_protocol.go:500-504 | wherever such an element stands, its text has 36 bytes, fixed ends, and two hexadecimal digits for each of the twelve bytes in order |
| BsonValues.BinaryShown | mongoport/mongo_protocol.go:489-497 | binary data show their length in decimal |
| BsonValues.RegexShown | mongoport/mongo_protocol.go:519-533 | a regular expression shows its pattern and options, a slash before each |
| BsonValues.CodeShown | mongoport/mongo_protocol.go:534-542 | code is its string, and no value when empty |
| BsonValues.ScopedCodeShown | mongoport/mongo_protocol.go:543-551 | code with a scope is passed by its length and shows a constant |
| BsonValues.TimestampShown | mongoport/mongo_protocol.go:557-561 | a time stamp is the signed number of its eight bytes |
| BsonValues.ConstantsShown | mongoport/mongo_protocol.go:498-575 | what is shown of undefined, decimal, least and greatest key, and how many bytes they take |
| BsonValues.BoolShown | mongoport/mongo_protocol.go:505-509 | any byte but zero is true |
| BsonValues.CutShown | mongoport/mongo_protocol.go:442-585 | a value of fixed size that is cut short is nil and takes nothing, as is one of an unknown type |
| BsonValues.ValueInDocument | mongoport/mongo_protocol.go:395-419 | the decoded map holds the value of every element that the loop comes to and whose key does not come again |
| BsonValues.ObjectIdInDocument | mongoport/mongo_protocol.go:395-585 | so a document of any other elements shows the twelve bytes of an identifier under its key |
| BsonTheorems.OpenPatternStops | mongoport/mongo_protocol.go:519-533 | seven bytes on which none is returned |
| BsonPrinter.BuildBSON | tools/protocol_sender.go:267-304 | for any keys and values the printer writes the elements in iteration order between a length and a terminator |
| BsonPrinter.PrintedDecodes | tools/protocol_sender.go:267-304 | what it prints for proper keys decodes, whatever follows it, to exactly those keys with the caller's own values; an int that does not fit 32 bits loses its high bits |
| Utf8.DecodeEncode | mongoport/mongo_protocol.go:644-667 | ranging over the bytes written for code points that are no surrogates gives them back |
| Utf8.EncodeDecodeExactly | mongoport/mongo_protocol.go:644-667 | writing the code points ranged over gives the string back if and only if it is valid UTF-8 |
| JsonPrinter.JsonEscape | mongoport/mongo_protocol.go:644-667 | the loop over the bytes escapes code point by code point |
| JsonPrinter.WriteJSONValue | mongoport/mongo_protocol.go:594-642 | appends the print of some walk of the tree that visits each key of each map exactly once, whatever the iteration order |
| JsonRoundTrip.EscapeForms | mongoport/mongo_protocol.go:647-664 | which escape each character has: the short ones, and four lower-case digits for other control characters |
| JsonRoundTrip.CharsEscape | mongoport/mongo_protocol.go:644-667 | reading a string of section 7 of RFC 8259 inverts the escaping |
| JsonRoundTrip.ValueReads | mongoport/mongo_protocol.go:594-642 | a printed value is read back to its last character, whatever may follow it, or, if some double in it is printed as a word, not read |
| JsonRoundTrip.PrintedReadsBack | mongoport/mongo_protocol.go:588-667 | for every order of the maps the printed text is JSON if and only if all doubles are printed as numbers, and then it reads as the tree in that order |
| JsonRoundTrip.WalkSays | mongoport/mongo_protocol.go:614-628 | whatever the order, that is the same JSON value if different names have different code points |
| JsonRoundTrip.ValidNamesApart | mongoport/mongo_protocol.go:614-628 | as names that are valid UTF-8 have |
| JsonRoundTrip.NamesCollide | mongoport/mongo_protocol.go:614-628 | two names that are not and do not |
| JsonRoundTrip.TextReadsBack | mongoport/mongo_protocol.go:588-667 | the bytes of the text are valid UTF-8, JSON if and only if all doubles are printed as numbers, and then read as the document if its names are apart |
| JsonRoundTrip.MapToJSON | mongoport/mongo_protocol.go:588-592 | returns the bytes of the print of some walk of the whole document, which are JSON if and only if all doubles are printed as numbers and then read as the document if its names are apart |
| BsonJson.BsonToJSON | mongoport/mongo_protocol.go:386-393 | the empty text below five bytes, otherwise the bytes of the print of some walk of the decoded document |
| BsonJson.EncodedToJSON | mongoport/mongo_protocol.go:386-393 | from the bytes of any encoded document, with anything behind them, to JSON that reads as that document, exactly when its doubles are printed as numbers |
| BsonJson.NanIsNoJSON | mongoport/mongo_protocol.go:608-609 | a document whose text is not JSON |
| JavaStream.ReadContent | dubboport/java_deserializer.go:128-160 | a content takes at least one byte, keeps the cursor in bounds and every earlier handle and descriptor as it was; the mutual recursion terminates |
| JavaStream.ReadClassDesc | dubboport/java_deserializer.go:193-307 | the same for a class descriptor and its super chain |
| JavaStream.ReadArray | dubboport/java_deserializer.go:510-560 | the same for an array, whose own handle is the only one rewritten |
| JavaStream.SkipAnnotation | dubboport/java_deserializer.go:724-743 | skipping block data only moves the cursor, forward and within the data |
| JavaTheorems.ClassDataAgrees | dubboport/java_deserializer.go:315-355 | on a legal chain, cyclic or not, the skipping path succeeds, fails, panics or goes on without end with the reading path, and ends at the same cursor, handle table, descriptors and created objects |
| JavaTheorems.FillersAccepted | dubboport/java_deserializer.go:838-875 | for any chain that ends there are bytes that the skipping path accepts, and the reading path if and only if the chain is legal |
| JavaTheorems.PathsPart | dubboport/java_deserializer.go:838-875 | for any chain with an illegal code, cyclic or not, there are bytes on which reading fails and skipping panics |
| JavaTheorems.AgreementExactly | dubboport/java_deserializer.go:838-875 | the two paths agree on all streams if and only if all type codes of the chain are legal |
| JavaTheorems.ClassDataKeeps | dubboport/java_deserializer.go:337-354 | a field read for a derived class is never overwritten by a base class |
| JavaTheorems.FieldsKeep | dubboport/java_deserializer.go:333-343 | reading fields adds exactly the declared names and changes no name set before |
| JavaTheorems.ReadAllKeeps | dubboport/java_deserializer.go:84-115 | at the top level the first value of a name stays |
| JavaChains.DetectionIsExact | dubboport/java_deserializer.go:315-355 | in one walk over a class chain, nested contents read as ReadContent reads them, looking for a class that comes back gives the result of the walk wherever that ends, and says so wherever it does not |
| JavaChains.EndlessExactly | dubboport/java_deserializer.go:315-355 | one walk passes classes without end if and only if it comes to a place from which the chain has no end and no class has a field or writes its own data |
| JavaChains.CycleWalkExactly | dubboport/java_deserializer.go:315-355 | on a cycle of descriptors reading never succeeds, and one walk passes classes without end, on whatever bytes, if and only if no class of the cycle has a field or writes its own data |
| JavaEnds.DescEnds | dubboport/java_deserializer.go:193-307 | reading a descriptor and its super chain ends, and panics if and only if it comes to a long string that takes the cursor beyond the signed range |
| JavaEnds.ContentEndsExactly | dubboport/java_deserializer.go:128-160 | on all bytes, reading a content goes on without end if and only if at some depth it comes to a class chain without an end on which no class takes a byte, and panics if and only if it comes to an overflowing long string; where all chains end it ends |
| JavaEnds.ChainEndsExactly | dubboport/java_deserializer.go:315-355 | the same for class data |
| JavaEnds.DecodingEndsExactly | dubboport/java_deserializer.go:68-122 | the same for decoding a stream |
| JavaEnds.ChainsEndDecodingEnds | dubboport/java_deserializer.go:68-122 | decoding ends on every stream whose class chains all end |
| JavaEnds.CycleEndsExactly | dubboport/java_deserializer.go:315-355 | on a cycle of descriptors reading never succeeds; if no class of it takes a byte it never ends, and otherwise it never ends if and only if reading some nested content does not |
| JavaEnds.NestedNeverEnds | dubboport/java_deserializer.go:315-355 | a cycle whose class has a field, and six bytes for that field on which reading does not end |
| JavaEnds.LongStringPanics | dubboport/java_deserializer.go:451-472 | nine bytes on which decoding panics |
| JavaPlain.ClassDataUnfolds | dubboport/java_deserializer.go:315-355 | reading class data is the own data of the first class followed by reading the data of its super afresh, whatever classes were passed |
| JavaPlain.SkipDataUnfolds | dubboport/java_deserializer.go:838-875 | the same for skipping |
| JavaPlain.ContentIsPlain | dubboport/java_deserializer.go:128-160 | a content is Endless if and only if the recursion that at no depth looks for classes coming back is cut by every limit on the classes of an object, and otherwise is what that recursion gives from some limit on |
| JavaPlain.ClassDataIsPlain | dubboport/java_deserializer.go:315-355 | the same for class data |
| JavaPlain.DecodingIsPlain | dubboport/java_deserializer.go:68-122 | the same for decoding a stream |
| JavaPlain.SkippingIsPlain | dubboport/java_deserializer.go:838-875 | the same for skipping class data |
| JavaRoundTrip.PrimReads | dubboport/java_deserializer.go:360-425 | the big-endian bytes of any value of the eight primitive types, integers in two's complement, are read as that value |
| JavaRoundTrip.TextReads | dubboport/java_deserializer.go:475-504 | so are strings in either form and back references to strings |
| JavaRoundTrip.DescReads | dubboport/java_deserializer.go:193-307 | a class descriptor as a writer lays it out, with its fields, annotation and super chain, cyclic or not, is read as it was written |
| JavaRoundTrip.ContentReads | dubboport/java_deserializer.go:128-160 | so is any content: nested objects, packed and object arrays, enums, class literals and back references, to its last byte and with the writer's handles |
| JavaRoundTrip.WrittenReads | dubboport/java_deserializer.go:68-122 | decoding any sequence of contents and resets, with the stream header or without, gives exactly the names and values written and the maps they refer to |
| JavaRoundTrip.FlatObjectReads | dubboport/java_deserializer.go:68-122 | for example an object with primitive and string fields decodes to exactly its names, each with its value |
| JavaRoundTrip.PartReadsExactly | dubboport/java_deserializer.go:322-351 | fields of a class that writes its own data are read if and only if they do not start like a block |
| JavaRoundTrip.ProtocolReferenceFails | dubboport/java_deserializer.go:610-627 | a back reference numbered as the protocol does, from 0x7E0000, fails unless there are that many handles, and then gives another one |
| JavaTheorems.SelfSuperNeverEnds | dubboport/java_deserializer.go:68-122 | an input on which decoding does not end: an object of an empty class that names itself as super |
| JavaDeserializer.JavaReader.ReadContent | dubboport/java_deserializer.go:128-160 | the method returns the specified value and leaves the specified cursor, handles and objects |
| JavaDeserializer.JavaReader.ReadClassDesc | dubboport/java_deserializer.go:193-307 | the same for class descriptors, with the handle taken before the body is read |
| JavaDeserializer.JavaReader.ReadObject | dubboport/java_deserializer.go:164-188 | a new object, known to the handle table before its fields are read |
| JavaDeserializer.JavaReader.ReadClassData | dubboport/java_deserializer.go:315-355 | fills one object in place class by class and changes no older one |
| JavaDeserializer.JavaReader.ReadOwnData | dubboport/java_deserializer.go:320-351 | the part of one class: fields and annotation, or only the annotation if a block comes first |
| JavaDeserializer.JavaReader.ReadFields | dubboport/java_deserializer.go:333-343 | the loop over the fields of one class |
| JavaDeserializer.JavaReader.ReadRawPrimitive | dubboport/java_deserializer.go:650-711 | the eight primitive types with their widths and signs |
| JavaDeserializer.JavaReader.ReadArray | dubboport/java_deserializer.go:510-560 | an array, with a placeholder in the handle table while its elements are read |
| JavaDeserializer.JavaReader.ReadElements | dubboport/java_deserializer.go:537-556 | the loop over the elements |
| JavaDeserializer.JavaReader.ReadEnum | dubboport/java_deserializer.go:563-584 | the name of the constant, its handle taken after the name |
| JavaDeserializer.JavaReader.ReadUTF | dubboport/java_deserializer.go:630-646 | a two-byte length and that many bytes |
| JavaDeserializer.JavaReader.SkipObjectAnnotation | dubboport/java_deserializer.go:724-743 | the loop over blocks up to the end mark |
| JavaDeserializer.JavaReader.SkipClassData | dubboport/java_deserializer.go:838-875 | the skipping path over a chain |
| JavaDeserializer.DeserializeJavaArgs | dubboport/java_deserializer.go:68-122 | the top-level loop terminates and merges what the specification merges |
| Resp.ReadReply | redisport/resp_protocol.go:135-195 | a reply, or an error with a byte read, consumes something, so nested replies terminate |
| RespTheorems.LineReads | redisport/resp_protocol.go:57-64 | a line without line ends of its own is read exactly |
| RespTheorems.AtoiFormat | redisport/resp_protocol.go:82-85 | reading a printed 64-bit number gives the number |
| RespTheorems.AtoiReads | redisport/resp_protocol.go:82-104 | so is any text of digits after an optional sign, leading zeros or not, unless it does not fit 64 bits |
| RespTheorems.AtoiFails | redisport/resp_protocol.go:82-104 | and nothing else is a number |
| RespTheorems.CommandReads | redisport/resp_protocol.go:56-132 | a command with any binary arguments is read back, and nothing behind it is touched |
| RespTheorems.InlineReads | redisport/resp_protocol.go:66-77 | of an inline command the first word in upper case is the name, the others in order are the arguments, and all are counted |
| RespTheorems.ArrayText | redisport/resp_protocol.go:188-191 | the text of an array, piece by piece: up to four parts all, of more the announced number and the first three |
| RespTheorems.ArrayShown | redisport/resp_protocol.go:176-191 | an array reply shows the texts of its items in order |
| RespTheorems.ReplyReads | redisport/resp_protocol.go:135-195 | any nested well-formed reply is read to its last byte and shown as defined |
| RespPanics.CommandPanicsExactly | redisport/resp_protocol.go:56-118 | a command panics if and only if its first line announces a negative or too large count, or a bulk string among the elements reached announces too much |
| RespPanics.ReplyPanicsExactly | redisport/resp_protocol.go:135-195 | a reply panics if and only if a single pass over the headers, with a stack of the arrays still open, reaches one that announces too much |
| RespPanics.NullArrayPanics | redisport/resp_protocol.go:82-87 | for example a null array, sent as a command |
| RespPanics.HugeBulkPanics | redisport/resp_protocol.go:156-167 | and a bulk string of one byte too many, sent as a reply |
| RespReader.ReadRESPCommand | redisport/resp_protocol.go:56-132 | the reader returns the specified command or error and leaves the specified bytes |
| RespReader.ReadElements | redisport/resp_protocol.go:90-120 | the loop over the elements of a command |
| RespReader.ReadRESPResponse | redisport/resp_protocol.go:135-195 | the same for replies |
| RespReader.ReadElementReplies | redisport/resp_protocol.go:176-186 | the loop over nested replies, which an error only ends |
| RedisHandler.RedisTrafficHandler.Handle | main.go:308-352 | the loop sends what the specification says, under any command, key and cost filter |
| RedisHandler.HandleMeaning | main.go:308-352 | on any two streams the handler sends the rounds before the one that stops it, in order, and if that is a shown command without a reply, that command twice |
| RedisHandler.ExchangeMeaning | main.go:328-351 | an answered exchange is sent once or, if a filter or the cost refuses it, not at all, the reply behind the command unless only commands are asked for |
| RedisHandler.TurnsPair | main.go:308-352 | on well-formed streams of any lengths the rounds are the pairs by position |
| RedisHandler.LockStep | main.go:308-352 | on well-formed streams, under any command, key and cost filter, what is sent is the in-order concatenation of the exchanges of the k-th command with the k-th reply, and then the first passing command without a reply twice |
| RedisHandler.KeyOfArray | main.go:319-327 | of a command sent as an array the key filter sees the element after the name |
| RedisHandler.KeyOfInline | main.go:319-327 | of an inline command it sees the second word after the name |
| RedisHandler.SentTwiceExactly | main.go:338-350 | a command is sent twice if and only if some command passes the filters and has no reply |
| WebSocket.MaskTwice | websocketport/websocket_protocol.go:173-178 | masking twice with the same key gives the payload back |
| WebSocket.XorDiffers | websocketport/websocket_protocol.go:173-178 | for all octets a bit of the result is set if and only if the two octets differ there |
| WebSocket.UnmaskSent | websocketport/websocket_protocol.go:173-178 | unmasking gives back the payload that a sender masked by the rule of section 5.3 of RFC 6455, octet i with octet i mod 4 of the key |
| WebSocket.ReservedOpcodeFails | websocketport/websocket_protocol.go:130-132 | the opcodes that section 5.2 reserves are refused |
| WebSocket.Unmask | websocketport/websocket_protocol.go:173-178 | the loop applies the key to every byte of the array in place |
| WebSocket.ReadFrame | websocketport/websocket_protocol.go:115-229 | a frame that is returned has a known opcode and at most 65536 bytes, and something was consumed |
| WebSocket.ReadWebSocketMessage | websocketport/websocket_protocol.go:115-229 | the reader returns the specified message or error and leaves the specified bytes |
| WebSocket.FrameReads | websocketport/websocket_protocol.go:115-229 | a frame of sections 5.2 and 5.3 of RFC 6455, in any length form that fits, masked or not, is read back with nothing behind it touched |
| WebSocket.TextRecovered | websocketport/websocket_protocol.go:190-195 | texts of up to 200 bytes are recovered whole, longer ones to 200 bytes and three dots |
| WebSocket.LongForm | websocketport/websocket_protocol.go:140-171 | a long form above 65536 is an error if its top bit is clear and a panic if it is set |
| WebSocket.FramePanicsExactly | websocketport/websocket_protocol.go:115-171 | over all bytes, reading panics if and only if a complete header in the long form has the top bit of its length set |
| WebSocket.FramesRead | websocketport/websocket_protocol.go:115-229 | any sequence of such frames is read frame by frame |

## Left out

- Goroutine scheduling, the bound of 1024 segments on a channel and liveness: a channel is a queue, a blocked read is a step that is not enabled, and only safety is proved.
- The mutex of the assembler: its methods run on one goroutine. FlushOlderThan unregisters all stale connections before it closes them and Assemble unregisters before it closes; the model does both per connection, and the two touch different objects.
- Assemble after FinishAll: the original then writes to a nil map.
- lastAck of the window: written and never read.
- Segments are values: that confirm trims the payload of the captured packet in place is modelled on the value sent.
- WindowRuns.RunInOrder: stated for one epoch, because outside it the comparison is no order (TcpSeq.WrapCounterexample); ReceiveWindow and ConnectionRuns.ReleasedFromStart hold for all numbers.
- Endpoints.KeyExactly: textual addresses are required to have no dash in them, as IP addresses have none.
- Formatting doubles and times: library functions and parameters of the printer; that a double is written as a number or as one of three words is an assumption where it is used (JsonRoundTrip.Formatted).
- BsonTheorems.DecodeUndoesEncode: keys are non-empty, free of NUL and distinct, because the decoder drops empty keys and BSON keys end at NUL; documents are shorter than 2^32 bytes, the width of their length field.
- A regular expression without a terminated pattern: the original slices one past the end, with an outcome that depends on the capacity behind the slice; the decoder of the model returns none there.
- A nested BSON document of fewer than five bytes is a nil map in the original and an empty one here; both print as {}.
- The reference reader of JSON keeps a number with a fraction or an exponent as its text.
- Opcode dispatch, headers and section scanning of MongoDB messages.
- JavaDeserializer.JavaReader.ReadClassData: returns where the original recurses without end, so that it terminates; what it then returns says so, exactly there (JavaPlain.ClassDataIsPlain).
- JavaDeserializer.JavaReader.SkipClassData: returns where the original recurses without end, as ReadClassData (JavaPlain.SkippingIsPlain).
- JavaDeserializer.JavaReader.ReadRawPrimitive: floating-point values stay raw bytes.
- JavaWriter: descriptors of proxies and exceptions, which the decoder refuses, are not written, nor are contents inside annotations, where it only takes block data; no stream is longer than 2^63 - 1 bytes, as no slice is.
- What the original does when an announced array is too large for memory is not modelled.
- Reading Java arguments from a Dubbo body: scanning for a stream start, attachments and all name and body heuristics.
- NetStream.DiscardAll: for a stream that the assembler finishes some time, as FinishAll does at the latest; on any other the original waits for ever.
- RespReader.ReadRESPResponse: the raw line, and what is returned beside an error, are not part of the model.
- RespReader.ReadRESPCommand: as CommandReads.
- RespTheorems.CommandReads: the raw text of a command is not part of the model; upper-casing and splitting of inline commands are library functions and parameters.
- Announced RESP lengths above 2^48 bytes panic as on 64-bit platforms; running out of memory below that is not modelled.
- RedisHandler.RedisTrafficHandler.Handle: the deferred closing and draining of both streams (NetStream.DiscardAll), the formatters, time stamps and the printer's channel are left out, and the filters are arbitrary predicates, the cost of an exchange being given by its number.
- The other protocol handlers, whose filters do not read the reply and so do not pair in lock-step.
- WebSocket.ReadWebSocketMessage: the formatted text of close frames, summaries and directions are display only.
- Packet capture, command line, signals, printers, HTTP, MySQL, ZooKeeper, RocketMQ, Nacos, Dubbo and Triple headers: input and output, library calls or short fixed headers.
