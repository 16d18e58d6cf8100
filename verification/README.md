# A framed message stream, and annotated FlatBuffers

This project models three parts of the repository in Dafny and proves what they are for.

**The framing layer** (`LibraryNet`, over `LibraryBase`). A sender encodes messages into frames: a 32-bit size, reserved
header bytes, a 16-bit message number and the payload. A send queue drains the frames in arbitrary portions; a receive
queue, a deque of buffers with two cursors each, is filled by scatter reads and drained from the front; `decode` cuts
frames back out, handing over a buffer as it is when that holds exactly one frame body.

**The FlatBuffers binary annotator** (`BinaryAnnotator`). It walks an arbitrary byte array by the offsets it finds there,
guided by a schema, and records labelled regions in sections; it shares vtables, and in the end fills the gaps between
regions and between sections.

**Generator algorithms with a meaning to preserve**: the C# code that builds a struct back to front, the opening and
closing of C++ namespaces, the name table of an enum against the switch it replaces, the numbering of fields that come from
protobuf messages, and the orders in which fields are visited.

## How it is built

Each part exists twice: as it runs, in classes and methods with the source's own fields, loops and branches; and as
values, in functions that the methods are proved against. What a part is for is then proved of the values. Scalars, padding
and the entries of a vtable are read by functions in both.

| files | what they hold |
|---|---|
| `Bytes`, `StableSort` | little-endian integers, powers of two; a stable sort and why there is only one |
| `Streams`, `RecvQueue`, `SendQueue`, `Encoder` | the classes of the framing layer; `Streams` follows `LibraryBase/Stream.h`, and its rows below cite where the operations are used |
| `Chunks`, `Frames`, `Framing` | queues as lists of chunks; the frame format; sender, wire and receiver as a state machine |
| `Schema`, `Walks`, `WalkFacts` | schemas, regions and sections; the regions of each kind of section; that they are in range, where they refer to, and when they are complete |
| `Shown` | what each thing is shown as, told from the schema and the bytes: statuses, types, extents, and what refers to what |
| `References` | what is reached from the root of a binary, and as what |
| `Sections`, `Annotations`, `Effects`, `Annotator` | the ordered section map; what every step of the walk keeps; what following a reference does; the class |
| `Gaps`, `SectionGaps`, `Finished`, `Ordinary` | filling gaps between regions and sections; what a finished annotation promises, of every binary and of those without overlaps |
| `Instances`, `Shortfalls` | binaries, and single steps, that show where it falls short |
| `StructBody`, `StructReading` | the emitter and what its code does; reading the result forward |
| `Namespaces`, `EnumTables`, `ProtoIds`, `FieldOrder` | the other generators |

The main results:

* `Framing.EveryRunDelivers`, `Framing.EveryRunCanFinish`: in every run, however frames are cut up on their way, what was
  delivered is what was sent, in order, and nothing is lost or doubled; and every run can be continued until all is
  delivered.
* `Frames.NoStall`: once a frame's length is known there is room for it, and receives keep it.
* `Annotators.BinaryAnnotator.Annotate` with the lemmas of `Finished`: for every binary the walk terminates; every section
  is of something that is reached from the root and has exactly the regions that binary and schema prescribe; every region
  is in range; every reference leads to where its bytes say, forward unless 64 bits wrap around, and to something annotated,
  or to a table whose vtable's location is inside something else; the vtable of every table that is annotated is annotated
  too; every field that is present has its region; and `Finished.ByteAnnotatedIff` says exactly which bytes are in a region.
* `Shown.TableRefersIff`, `Shown.ElementShown`, `Shown.EntryIff` and the others of `Shown`: what tables and vectors refer to,
  which entries vtables have, and every error that is reported, each exactly, from the schema and the bytes.
* `Ordinary.EverythingReached`, `Ordinary.FieldAnnotated`, `Ordinary.ElementAnnotated`: when the sections that a binary
  prescribes for what is reached from its root do not overlap, and its vtables can be read, all of them are there and
  nothing else is.
* `Sections.IndexIsScanIff`: the exact condition under which the predecessor lookup finds what a scan would.
* `Gaps.FilledIsTiling`, `SectionGaps.MissingExact`: what filling the gaps does.
* `StructReading.WriterAndReaderAgree`, `StructReading.ReadsIff`: writer and reader of structs agree, and exactly when the
  reader misses padding at the end of the binary.
* `Namespaces.NoShorterWay`, `EnumTables.GenEnumStringTable`, `ProtoIds.IdsApart`, `ProtoIds.IdsFillUp`,
  `ProtoIds.DistinctIff`, `FieldOrder.GenBuilder`.

Where the code does less than one might expect, the model keeps the code and says exactly when it falls short:

* a gap of a single byte stays a gap, and bytes of a section that ends in an error region behind the binary are lost
  (`Finished.ByteAnnotatedIff`, `Instances.LoneByteIsLeftOut`, `Instances.StrayBytesAreLost`);
* padding that ends where the binary ends is not annotated (`StructReading.ReadsIff`, `StructReading.VectorOfStructs`,
  `Shortfalls.PaddingIsLeftOut`);
* a union with a good offset whose type is not valid or not listed gets no region, and in a vector of unions an offset that
  leads out of the binary is reported again for every element that is left (`WalkFacts.UnionFieldIff`,
  `WalkFacts.UnionElementsComplete`, `Shortfalls.UnionIsLeftOut`, `Shortfalls.BadOffsetIsRepeated`);
* a table is not annotated when its vtable cannot be read, or is not cached and at a place where the lookup finds a section
  (`Annotations.VTableIff` and `Effects.TableKeyIff` for the step; `Finished.RootTableIff` for the root table, from the bytes
  alone; `Instances.RootTableIsLost`);
* the types of a vector of unions are looked for in the wrong place if they are 2^16 bytes or more behind their field
  (`Shown.TypesFoundIff`, `Shortfalls.TypesAreMissed`);
* signed numbers of one and of four bytes are labelled as unsigned (`Shown.RegionTypeIff`);
* a vtable that is shared lists the fields that it lists as seen from the first table that referred to it, which can be others
  than as seen from the table at hand (`WalkFacts.SharedIff`, `Shortfalls.SharedVTableDiffers`);
* what begins inside a section that is there already gets none of its own (`Annotators.BinaryAnnotator.BuildTable`,
  `BuildString`, `BuildVector` and `BuildUnion`); without overlaps that does not happen (`Ordinary.EverythingReached`);
* a 64-bit offset can lead back when it wraps around (`WalkFacts.ForwardIff`, `Shortfalls.OffsetLeadsBack`);
* the length of a vector is accepted when 64 bits wrap around to a place in the binary (`WalkFacts.AcceptedIff`,
  `Shortfalls.LengthWrapsAround`);
* the lookup of sections can miss one that reaches over another (`Sections.IndexIsScanIff`, `Instances.TableSticksOut`);
* a body of 2^32 bytes or more is not what its size field says (`Frames.SizeFieldExact`, `Frames.RefusedIff`).

Three places where names or comments suggest something else than the code does:

* The check for ids that are not positive accepts 0; it only rejects what is not a 16-bit number
  (`SpecialThx/flatbuffers-25.2.10/src/idl_gen_fbs.cpp:61-73`).
* The branch for a cycle in a vector of tables is never taken, whatever the binary: offsets of elements only lead forward
  from the vector, which is behind the table it belongs to
  (`SpecialThx/flatbuffers-25.2.10/src/binary_annotator.cpp:1157-1168`).
* The check for gaps between proto ids reports a duplicate as a gap too (`ProtoIds.HasGapInProtoId`); with the
  checks in their order that makes no difference.

## Model

| member | source | states |
|---|---|---|
| Framing.EveryRunDelivers | LibraryNet/Encoder.cpp:9-91 | after every run that interleaves sending, partial transmission, receives of any size, preparing and decoding, what was delivered is the first of what was sent, of each message its number and its payload; the frames sent are the frames delivered, then the receive queue, the wire and the send queue, byte for byte; decode would not throw; with nothing under way and decode asking for more, all was delivered |
| Framing.EveryRunCanFinish | LibraryNet/RecvQueue.cpp:12-122 | no deadlock: from the end of every run the run can go on until all that was sent is delivered in order |
| Framing.StepKeeps | LibraryNet/Encoder.cpp:9-91 | every enabled step of sender, wire or receiver keeps the invariant: what is under way is the frames not yet delivered, the receive queue is ordered, no queued stream is empty |
| Framing.RunKeeps | LibraryNet/Encoder.cpp:9-91 | the invariant holds all along a run of any length |
| Framing.TransmitKeeps | LibraryNet/SendQueue.cpp:24-38 | consuming any number of queued bytes meets the assertions of `consume` in every reachable state, and loses no byte |
| Framing.ReceiveKeeps | LibraryNet/RecvQueue.cpp:19-63 | a scatter read of any size, committed, moves exactly those bytes from the wire to the receive queue |
| Framing.DecodeKeeps | LibraryNet/Encoder.cpp:21-48 | in every reachable state decode does not throw, and takes off one whole frame or nothing |
| Framing.DecodeFront | LibraryNet/Encoder.cpp:57-91 | on the received front of a stream of frames decode gives the first message that is not delivered yet, and leaves the frames behind it |
| Framing.CanFinish | LibraryNet/RecvQueue.cpp:12-63 | with all transmitted, some sequence of receives, prepares and decodes delivers everything |
| Framing.NextDelivery | LibraryNet/RecvQueue.cpp:12-63 | with an empty send queue, as long as something is undelivered, some receive, prepare or decode makes progress |
| Frames.ParseFrame | LibraryNet/Encoder.cpp:9-48 | decoding what encode wrote gives the message back and leaves what follows it |
| Frames.ParseExact | LibraryNet/Encoder.cpp:57-91 | decode returns the message if and only if the whole first frame has arrived; otherwise it asks for more and refuses nothing |
| Frames.ParsePrefix | LibraryNet/Encoder.cpp:57-91 | a proper prefix of a frame is never taken for a frame, and shows the right size once four bytes are there |
| Frames.SizeFieldExact | LibraryNet/Encoder.cpp:50-55 | the size field counts the body exactly if the body is shorter than 2^32 bytes |
| Frames.PlainFrame | LibraryNet/Encoder.cpp:9-19 | with the encoder that changes nothing a frame is its size, the header, the message number in two bytes and the payload, at these places |
| Frames.RefusedIff | LibraryNet/Encoder.cpp:50-75 | a frame that has arrived is thrown out exactly if the size its field shows, which is that of the body modulo 2^32, is above the limit or too small for header and message number |
| Frames.OversizeIsRefused | LibraryNet/Encoder.cpp:50-75 | with every encoder, a body of 2^32 bytes is thrown out by the receiver, as its size field reads 0 |
| Frames.LawfulIsSendable | LibraryNet/Encoder.cpp:9-19 | with a lawful pair of transformations a message can be sent exactly if its encoded body is below 2^32 bytes and passes the limit |
| Frames.NullCodecLawful | LibraryNet/Encoder.h:76-77 | the encoder that changes nothing satisfies the round-trip law |
| Frames.FastPathIsSlowPath | LibraryNet/Encoder.cpp:31-43 | detaching the front buffer and copying it out give the same frame bytes and leave the same readable bytes |
| Frames.DecodeEffect | LibraryNet/Encoder.cpp:21-48 | decode leaves exactly what is behind the frame it returns, or all bytes when it returns none or throws, and keeps the order of the queue |
| Frames.DecodeMakesRoom | LibraryNet/Encoder.cpp:77-91 | when decode asks for more with the length known, readable and writable bytes together hold the whole frame |
| Frames.NoStall | LibraryNet/Encoder.cpp:77-91 | receives keep that room, another nonempty receive is possible until the frame is whole, and as many receives as bytes are missing complete it |
| Encoders.Encoder.Encode | LibraryNet/Encoder.cpp:9-19 | returns a fresh stream that holds the frame of the message: in front the size, and behind it the encoded form of header, message number and payload, in this order |
| Encoders.Encoder.SetSize | LibraryNet/Encoder.cpp:50-55 | writes the number of bytes behind the size field, modulo 2^32, into it, and changes nothing else |
| Encoders.Encoder.ValidateSize | LibraryNet/Encoder.cpp:57-75 | too few bytes, an illegal size, or the size of the next frame |
| Encoders.Encoder.Enough | LibraryNet/Encoder.cpp:77-91 | true exactly if the whole frame is readable; else makes room, if the room is missing, and leaves the contents alone |
| Encoders.Encoder.CopyBody | LibraryNet/Encoder.cpp:38-42 | a stream of its own with the next size bytes; the queue is not changed |
| Encoders.Encoder.TakeBody | LibraryNet/Encoder.cpp:31-43 | either way, the next size bytes, in a stream the queue no longer knows |
| Encoders.Encoder.TakeFrame | LibraryNet/Encoder.cpp:29-43 | removes size field and body, and returns the body |
| Encoders.Encoder.DecodeSized | LibraryNet/Encoder.cpp:29-47 | with the size known: no frame until it has all arrived, and then its message, in memory that the queue does not share; the queue changes as `Frames.DecodeQueue` says |
| Encoders.Encoder.Decode | LibraryNet/Encoder.cpp:21-48 | nothing, an exception or a message exactly as `Frames.Parse` says of the readable bytes; the queue changes as `Frames.DecodeQueue` says; the message shares no memory with the queue |
| Chunks.ScatterReceive | LibraryNet/RecvQueue.cpp:19-63 | writing n bytes into the free space in order and committing n appends exactly those bytes to the readable contents, and keeps the order |
| Chunks.FillEffect | LibraryNet/RecvQueue.cpp:19-32 | a scatter read changes the front of the free space only |
| Chunks.CommitEffect | LibraryNet/RecvQueue.cpp:47-63 | committing moves the front of the free space, or all of it when there is less, to the end of the contents |
| Chunks.PopEffect | LibraryNet/RecvQueue.cpp:83-112 | popping removes exactly the first size readable bytes, moves no other, and keeps the order |
| Chunks.TakeFrontEffect | LibraryNet/RecvQueue.cpp:87-110 | one round of pop removes its bytes; when more must be popped the stream is erased, so a reset only happens in the last round |
| Chunks.PeekEffect | LibraryNet/RecvQueue.cpp:64-82 | peeking across streams yields exactly the first size readable bytes |
| Chunks.LastTaken | LibraryNet/RecvQueue.cpp:96-103 | the last stream, when it is emptied, is kept and reset exactly if it has 4096 bytes |
| Chunks.PrepareEffect | LibraryNet/RecvQueue.cpp:12-18 | afterwards size bytes are free; the contents stay, and so does the order; a buffer is added exactly if the queue is empty or too little is free |
| Chunks.NextPow2Least | LibraryBase/StreamBuf.h:45-48 | the capacity is the least power of two that holds the request and the minimum of 64 |
| Chunks.VerifyDoubles | LibraryBase/StreamVerifier.cpp:6-12 | a growth step makes the room that is asked for and at least doubles the capacity |
| Chunks.GrowthAmortised | LibraryBase/StreamVerifier.cpp:6-12 | over any run of writes the bytes moved by reallocation stay below the final capacity |
| RecvQueues.RecvQueue.Prepare | LibraryNet/RecvQueue.cpp:12-18 | adds a buffer of at least 4096 bytes exactly if the queue is empty or too little is free |
| RecvQueues.RecvQueue.EmplaceBack | LibraryNet/RecvQueue.cpp:16-16 | a fresh empty buffer at the back, with memory of its own |
| RecvQueues.RecvQueue.Buffers | LibraryNet/RecvQueue.cpp:19-32 | the free regions of exactly the streams that have free space, in order, each from the write cursor to the end |
| RecvQueues.RecvQueue.ReadableSize | LibraryNet/RecvQueue.cpp:33-39 | the number of readable bytes over all streams |
| RecvQueues.RecvQueue.WritableSize | LibraryNet/RecvQueue.cpp:40-46 | the number of free bytes over all streams |
| RecvQueues.RecvQueue.Commit | LibraryNet/RecvQueue.cpp:47-63 | the queue becomes `Chunks.Commit` of what it was |
| RecvQueues.RecvQueue.CommitStream | LibraryNet/RecvQueue.cpp:51-61 | one stream takes what fits; says how much is left |
| RecvQueues.RecvQueue.ReceiveInto | LibraryNet/RecvQueue.cpp:19-32 | a socket that fills the buffers in order turns the queue into `Chunks.Fill` of what it was |
| RecvQueues.RecvQueue.Peek | LibraryNet/RecvQueue.cpp:64-82 | the first size bytes of the contents; the queue is not changed |
| RecvQueues.RecvQueue.Pop | LibraryNet/RecvQueue.cpp:83-112 | terminates, and the queue becomes `Chunks.Pop` of what it was |
| RecvQueues.RecvQueue.PopFront | LibraryNet/RecvQueue.cpp:87-110 | one round of the loop: takes what the front stream has of the bytes left, and drops it unless that is all |
| RecvQueues.RecvQueue.TakeFront | LibraryNet/RecvQueue.cpp:89-106 | consumes from the front stream; erases it when empty, or resets it when it is the last and has the default size |
| RecvQueues.RecvQueue.Detachable | LibraryNet/RecvQueue.cpp:113-116 | true exactly if the front stream has size readable bytes |
| RecvQueues.RecvQueue.Detach | LibraryNet/RecvQueue.cpp:117-122 | hands over the front stream as it is, and nothing left in the queue shares its memory |
| RecvQueues.RecvQueue.Clear | LibraryNet/RecvQueue.cpp:8-11 | the queue is empty |
| SendQueues.DrainableIff | LibraryNet/SendQueue.cpp:24-38 | the assertions of consume hold exactly if there are enough bytes and no empty stream in front of the last of them |
| SendQueues.NoneEmptyIsDrainable | LibraryNet/SendQueue.cpp:24-38 | with no empty stream queued, consuming at most what is queued meets the assertions |
| SendQueues.DrainEffect | LibraryNet/SendQueue.cpp:24-38 | consume removes exactly the first size bytes and leaves no empty stream |
| SendQueues.SendQueue.PushBytes | LibraryNet/SendQueue.cpp:12-19 | the bytes are behind what was queued |
| SendQueues.SendQueue.PushStream | LibraryNet/SendQueue.cpp:20-23 | the readable bytes of the stream are behind what was queued; the memory is shared and not changed |
| SendQueues.SendQueue.Consume | LibraryNet/SendQueue.cpp:24-38 | terminates, meets its assertions, and the queue becomes `SendQueues.Drain` of what it was |
| SendQueues.SendQueue.ConsumeFront | LibraryNet/SendQueue.cpp:29-36 | one round of the loop |
| SendQueues.SendQueue.Clear | LibraryNet/SendQueue.cpp:8-11 | the queue is empty |
| Streams.StreamBuf.Allocate | LibraryBase/StreamBuf.h:22-29 | the capacity is nextPow2 of the request, whether the block grows or shrinks, and what fits of the old bytes is kept; nothing changes for a request of 0 |
| Streams.Stream.constructor | LibraryNet/Encoder.cpp:11-11 | an empty stream over memory of its own |
| Streams.Stream.Copy | LibraryNet/SendQueue.cpp:20-23 | shares the memory, has cursors of its own |
| Streams.Stream.Verify | LibraryBase/StreamVerifier.cpp:6-12 | room for size more bytes, all bytes written before in place |
| Streams.Stream.Write | LibraryNet/Encoder.cpp:14-15 | appends the bytes to what is readable |
| Streams.Stream.Reserve | LibraryNet/Encoder.cpp:12-13 | appends size bytes of whatever memory holds |
| Streams.Stream.Commit | LibraryNet/RecvQueue.cpp:51-61 | moves the first free bytes to what is readable |
| Streams.Stream.Consume | LibraryNet/SendQueue.cpp:31-33 | moves the first readable bytes to what is consumed |
| Streams.Stream.Reset | LibraryNet/RecvQueue.cpp:92-97 | all memory is free again |
| Streams.Stream.Peek | LibraryNet/RecvQueue.cpp:69-80 | the first readable bytes |
| Annotators.BinaryAnnotator.Annotate | SpecialThx/flatbuffers-25.2.10/src/binary_annotator.cpp:122-157 | terminates on every binary; below the minimum size nothing is returned and nothing changes; otherwise the result is an annotation that the walk built, with both kinds of gaps filled |
| Annotators.BinaryAnnotator.BuildAll | SpecialThx/flatbuffers-25.2.10/src/binary_annotator.cpp:143-149 | an annotation: the header; if the root offset is in the binary, the root table of the root type, built right behind it; and only sections of what is reached from there, each with exactly the regions that binary and schema prescribe for it, with all it refers to, its vtable included, annotated |
| Annotators.BinaryAnnotator.BuildHeader | SpecialThx/flatbuffers-25.2.10/src/binary_annotator.cpp:159-235 | the section map is just the header section at 0; returns the location of the root table |
| Annotators.BinaryAnnotator.ReadHeader | SpecialThx/flatbuffers-25.2.10/src/binary_annotator.cpp:159-229 | the branches over size prefix, root offset and file identifier give `Walks.HeaderRegions` |
| Annotators.BinaryAnnotator.GetOrBuildVTable | SpecialThx/flatbuffers-25.2.10/src/binary_annotator.cpp:237-496 | result, sections and cache are exactly those of the step `Annotations.GetVTable`; without a vtable its location is inside a section that is not that of a readable vtable there |
| Annotators.BinaryAnnotator.CachedVTable | SpecialThx/flatbuffers-25.2.10/src/binary_annotator.cpp:240-246 | the first cached vtable for the table type at the offset; none exactly if there is none |
| Annotators.BinaryAnnotator.BuildVTable | SpecialThx/flatbuffers-25.2.10/src/binary_annotator.cpp:257-474 | the vtable and its regions, or the error region, as `Walks.VTableAt` says |
| Annotators.BinaryAnnotator.ScanKnown | SpecialThx/flatbuffers-25.2.10/src/binary_annotator.cpp:352-436 | the loop over the schema's fields gives `Walks.KnownEntries` |
| Annotators.BinaryAnnotator.ScanUnknown | SpecialThx/flatbuffers-25.2.10/src/binary_annotator.cpp:438-474 | the loop over further entries gives `Walks.UnknownEntries` |
| Annotators.BinaryAnnotator.RecordVTable | SpecialThx/flatbuffers-25.2.10/src/binary_annotator.cpp:476-492 | the vtable has its section, unless there was one, and is in the cache exactly if it could be read; nothing else changes |
| Annotators.BinaryAnnotator.BuildTable | SpecialThx/flatbuffers-25.2.10/src/binary_annotator.cpp:498-855 | terminates by the distance to the end of the binary; unless the offset was annotated, the table is annotated as one of its type, or its vtable is blocked; nothing that was annotated is changed |
| Annotators.BinaryAnnotator.BuildTableAt | SpecialThx/flatbuffers-25.2.10/src/binary_annotator.cpp:551-855 | without a vtable exactly the step for the vtable; with one, the section with exactly the regions of `Walks.TableRegions` for that vtable is stored at the offset, unless something that can be anywhere took its place, and its references are resolved |
| Annotators.BinaryAnnotator.BuildTableFields | SpecialThx/flatbuffers-25.2.10/src/binary_annotator.cpp:560-855 | the section with exactly the regions of `Walks.TableRegions` for the vtable is stored, unless something that can be anywhere took its place, and its references are resolved |
| Annotators.BinaryAnnotator.BuildFieldRegions | SpecialThx/flatbuffers-25.2.10/src/binary_annotator.cpp:583-835 | the regions of all fields in the order of their offsets, with everything they refer to annotated |
| Annotators.BinaryAnnotator.BuildTableField | SpecialThx/flatbuffers-25.2.10/src/binary_annotator.cpp:584-835 | the regions of one field; if that is a reference, it has been followed as what it is, and otherwise nothing has changed |
| Annotators.BinaryAnnotator.FollowField | SpecialThx/flatbuffers-25.2.10/src/binary_annotator.cpp:742-831 | the reference in a field has been followed: table, string, vector or union of the field's own type, exactly |
| Annotators.BinaryAnnotator.FollowTable | SpecialThx/flatbuffers-25.2.10/src/binary_annotator.cpp:758-759 | a reference to a table or a union has been followed; what is new lies behind the referring section or can be anywhere |
| Annotators.BinaryAnnotator.ReadField | SpecialThx/flatbuffers-25.2.10/src/binary_annotator.cpp:585-834 | the branches over the kinds of fields give `Walks.TableFieldRegions` |
| Annotators.BinaryAnnotator.ReadUnknownField | SpecialThx/flatbuffers-25.2.10/src/binary_annotator.cpp:603-649 | a field that the schema does not know gives `Walks.UnknownFieldRegions` |
| Annotators.BinaryAnnotator.ReadScalarField | SpecialThx/flatbuffers-25.2.10/src/binary_annotator.cpp:651-694 | a scalar or a type of a union gives `Walks.ScalarFieldRegions` |
| Annotators.BinaryAnnotator.ReadOffsetField | SpecialThx/flatbuffers-25.2.10/src/binary_annotator.cpp:696-834 | an offset of 32 or 64 bits, with the type that a union needs, gives `Walks.OffsetFieldRegions` |
| Annotators.BinaryAnnotator.BuildStruct | SpecialThx/flatbuffers-25.2.10/src/binary_annotator.cpp:857-971 | appends the regions that `Walks.StructWalk` prescribes and returns where it ends |
| Annotators.BinaryAnnotator.BuildStructField | SpecialThx/flatbuffers-25.2.10/src/binary_annotator.cpp:864-956 | the same for one field |
| Annotators.BinaryAnnotator.BuildScalarArray | SpecialThx/flatbuffers-25.2.10/src/binary_annotator.cpp:914-943 | an array of scalars, up to the first that cannot be read |
| Annotators.BinaryAnnotator.BuildStructArray | SpecialThx/flatbuffers-25.2.10/src/binary_annotator.cpp:944-955 | an array of structs |
| Annotators.BinaryAnnotator.BuildString | SpecialThx/flatbuffers-25.2.10/src/binary_annotator.cpp:973-1034 | exactly the string's section is added, unless the offset was annotated |
| Annotators.BinaryAnnotator.ReadString | SpecialThx/flatbuffers-25.2.10/src/binary_annotator.cpp:982-1028 | the branches over the length give `Walks.StringRegions` |
| Annotators.BinaryAnnotator.BuildVector | SpecialThx/flatbuffers-25.2.10/src/binary_annotator.cpp:1036-1381 | terminates by the distance to the end; unless the offset was annotated, the section with exactly the regions of `Walks.VectorRegions` for the field's own element is stored, and its references are resolved; behind a vector of scalars or structs nothing else changes |
| Annotators.BinaryAnnotator.BuildVectorRegions | SpecialThx/flatbuffers-25.2.10/src/binary_annotator.cpp:1069-1376 | exactly the regions of `Walks.VectorRegions`, with all they refer to annotated |
| Annotators.BinaryAnnotator.StoreVector | SpecialThx/flatbuffers-25.2.10/src/binary_annotator.cpp:1377-1380 | adds the section, and keeps what is annotated |
| Annotators.BinaryAnnotator.BuildElements | SpecialThx/flatbuffers-25.2.10/src/binary_annotator.cpp:1109-1376 | the regions of all elements, with what they refer to annotated; nothing changes for scalars and structs |
| Annotators.BinaryAnnotator.BuildScalarElements | SpecialThx/flatbuffers-25.2.10/src/binary_annotator.cpp:1333-1373 | the loop over scalars gives `Walks.ScalarElements` |
| Annotators.BinaryAnnotator.BuildStructElements | SpecialThx/flatbuffers-25.2.10/src/binary_annotator.cpp:1115-1122 | the loop over structs gives `Walks.StructElements` |
| Annotators.BinaryAnnotator.BuildOffsetElements | SpecialThx/flatbuffers-25.2.10/src/binary_annotator.cpp:1124-1223 | the loops over offsets to tables and strings: every good offset is followed |
| Annotators.BinaryAnnotator.BuildOffsetElement | SpecialThx/flatbuffers-25.2.10/src/binary_annotator.cpp:1125-1192 | one round of the loop: the region of the element, with what it refers to annotated |
| Annotators.BinaryAnnotator.FollowElement | SpecialThx/flatbuffers-25.2.10/src/binary_annotator.cpp:1188-1220 | the reference in an element has been followed as the table, string or union that it is, exactly |
| Annotators.BinaryAnnotator.BuildUnionElements | SpecialThx/flatbuffers-25.2.10/src/binary_annotator.cpp:1264-1322 | the loop over unions: every union with a valid type is built |
| Annotators.BinaryAnnotator.BuildUnionElement | SpecialThx/flatbuffers-25.2.10/src/binary_annotator.cpp:1264-1321 | one round of the loop, with the place where the next one goes on and whether it stops |
| Annotators.BinaryAnnotator.BuildUnion | SpecialThx/flatbuffers-25.2.10/src/binary_annotator.cpp:1383-1417 | terminates by the distance to the end; unless the offset was annotated, the table of the union's value is built there, or exactly the section of its struct is added, or nothing changes |
| Annotators.BinaryAnnotator.ContainsSection | SpecialThx/flatbuffers-25.2.10/src/binary_annotator.cpp:1502-1517 | the lookup through the index; a yes is always right, and a no means that no section starts there |
| Annotators.BinaryAnnotator.AddSection | SpecialThx/flatbuffers-25.2.10/src/binary_annotator.h:349-354 | exactly the section is added, unless its key was taken; with resolved references the invariant is kept |
| Annotators.BinaryAnnotator.FixMissingRegions | SpecialThx/flatbuffers-25.2.10/src/binary_annotator.cpp:1419-1466 | every section has its gaps filled as `Gaps.FillSection` says, and no other change |
| Annotators.BinaryAnnotator.FixMissingSections | SpecialThx/flatbuffers-25.2.10/src/binary_annotator.cpp:1468-1500 | what is missing is inserted behind the section it is missing behind, and nothing that is inserted is taken for a section that is there |
| Annotations.AddKeeps | SpecialThx/flatbuffers-25.2.10/src/binary_annotator.cpp:1377-1380 | adding a section keeps all sections as prescribed, in range and resolved, and in agreement with the cache of vtables |
| Annotations.ContainedIsFound | SpecialThx/flatbuffers-25.2.10/src/binary_annotator.cpp:1502-1517 | in every reachable state a yes of the lookup means that some section starts at or covers the offset |
| Annotations.GetVTableKeeps | SpecialThx/flatbuffers-25.2.10/src/binary_annotator.cpp:237-496 | the step for a vtable keeps that too; it yields a vtable of the table's type that was read there, or its location is blocked |
| Annotations.ContainedIsBlocked | SpecialThx/flatbuffers-25.2.10/src/binary_annotator.cpp:250-253 | where no vtable is cached, what the lookup finds is not the section of a vtable that can be read there |
| Annotations.VTableIff | SpecialThx/flatbuffers-25.2.10/src/binary_annotator.cpp:237-286 | the step yields a vtable exactly if one can be read there and, where none is cached, the lookup finds no section |
| Effects.TableKeyIff | SpecialThx/flatbuffers-25.2.10/src/binary_annotator.cpp:498-545 | a table that is come to for the first time gets a section at its offset exactly if its vtable is nowhere in the binary, or where the table is, or can be read and, where none is cached, is not found by the lookup |
| Annotations.CachedIsUsable | SpecialThx/flatbuffers-25.2.10/src/binary_annotator.cpp:237-253 | where a vtable is cached there is a vtable section, and what is there can be read as a vtable |
| Effects.FreeGrows | SpecialThx/flatbuffers-25.2.10/src/binary_annotator.cpp:853-854 | what is annotated while the fields of a table are followed leaves the place for the table free |
| Effects.TableSectionOk | SpecialThx/flatbuffers-25.2.10/src/binary_annotator.cpp:498-855 | the section of a table that is reached is as prescribed and in range |
| Effects.VectorSectionOk | SpecialThx/flatbuffers-25.2.10/src/binary_annotator.cpp:1036-1381 | the section of a vector that is reached is as prescribed and in range |
| References.FieldReference | SpecialThx/flatbuffers-25.2.10/src/binary_annotator.cpp:742-834 | a field that refers to something has that one region, of the kind that the schema says; a union's value is what its type field holds |
| References.UnionTypesMatch | SpecialThx/flatbuffers-25.2.10/src/binary_annotator.cpp:1229-1239 | the types found for a vector of unions belong to its own enum |
| References.TableReference | SpecialThx/flatbuffers-25.2.10/src/binary_annotator.cpp:583-835 | what a table refers to is of a kind that there is in the schema, and ahead of the table |
| References.VectorReference | SpecialThx/flatbuffers-25.2.10/src/binary_annotator.cpp:1109-1323 | what a vector refers to is a table, string or union of the schema, strictly behind the vector; scalars and structs refer to nothing |
| References.ReferencesLeadOn | SpecialThx/flatbuffers-25.2.10/src/binary_annotator.cpp:742-834 | all that is reached is in the binary; tables and unions lie behind the table they are reached from |
| References.ReachTable | SpecialThx/flatbuffers-25.2.10/src/binary_annotator.cpp:758-759 | a reference to a table, be it as the member of a union, makes a table of that type reached |
| Shown.ReadIff | SpecialThx/flatbuffers-25.2.10/src/binary_annotator.h:333-350 | a number is read exactly if it ends in the binary and is shorter than it, and is what its bytes say |
| Shown.SignedIff | SpecialThx/flatbuffers-25.2.10/src/binary_annotator.cpp:506-522 | four bytes as a signed number |
| Shown.RegionTypeIff | SpecialThx/flatbuffers-25.2.10/src/binary_annotator.h:206-222 | the region type of a scalar is the one of its width, floating point or a union type exactly if the scalar is, and signed exactly for integers of two and of eight bytes that are |
| Shown.RootIs | SpecialThx/flatbuffers-25.2.10/src/binary_annotator.cpp:159-203 | behind a prefix of n bytes the root offset is n and the four bytes at n |
| Shown.HeaderShown | SpecialThx/flatbuffers-25.2.10/src/binary_annotator.cpp:159-235 | one region for the prefix, if there is one, one for the root offset, with its error exactly if it leads out, and one for an identifier exactly if four more bytes can be printed |
| Shown.StringShown | SpecialThx/flatbuffers-25.2.10/src/binary_annotator.cpp:985-1028 | length, characters and terminator end to end exactly if all lie in the binary, else the length alone, in error |
| Shown.StringCutShort | SpecialThx/flatbuffers-25.2.10/src/binary_annotator.cpp:988-998 | a length that cannot be read is shown as what is left of the binary |
| Shown.ScalarShown | SpecialThx/flatbuffers-25.2.10/src/binary_annotator.cpp:866-888 | a number of a struct is shown as its type exactly if it can be read, and else what is left of the binary |
| Shown.ScalarFieldShown | SpecialThx/flatbuffers-25.2.10/src/binary_annotator.cpp:651-692 | a number of a table, with its error exactly if it is a type that its union does not have |
| Shown.ScalarElementShown | SpecialThx/flatbuffers-25.2.10/src/binary_annotator.cpp:1325-1368 | every number of a vector that lies in the binary, with its error exactly if it is a type that its union does not have |
| Shown.UnknownFieldShown | SpecialThx/flatbuffers-25.2.10/src/binary_annotator.cpp:601-648 | a field that the schema does not know reaches to the next, or is cut short exactly if that is not in the binary |
| Shown.GapIff | SpecialThx/flatbuffers-25.2.10/src/binary_annotator.cpp:1438-1454 | a gap in a section is all of it, and shown as bytes exactly if they are zero, else as unknown, with a warning |
| Shown.GapSectionIff | SpecialThx/flatbuffers-25.2.10/src/binary_annotator.cpp:79-117 | a section that fills a gap takes in all of it, is padding exactly if its bytes are zero, and warns by whether they are and there are eight |
| Shown.BadVTableShown | SpecialThx/flatbuffers-25.2.10/src/binary_annotator.cpp:257-299 | a vtable cannot be read exactly if its size cannot, or is too large for the binary, or is below four, and each is shown as that error |
| Shown.VTableSizesShown | SpecialThx/flatbuffers-25.2.10/src/binary_annotator.cpp:300-340 | the two sizes of a vtable, with the error of the second exactly if the table would not end in the binary or is below four |
| Shown.EntryShown | SpecialThx/flatbuffers-25.2.10/src/binary_annotator.cpp:355-436 | every entry for a field of the schema has a region, in error exactly if it leads out of the binary as seen from the table, or is zero and the field required |
| Shown.EntryIff | SpecialThx/flatbuffers-25.2.10/src/binary_annotator.cpp:438-472 | exactly the ids that are listed for fields of the schema have an entry, and, from the number of shared fields on, as many as there is room for, up to three times that number in 16 bits |
| Shown.UnknownEntryShown | SpecialThx/flatbuffers-25.2.10/src/binary_annotator.cpp:447-472 | each of the latter has a region |
| Shown.EntriesCounted | SpecialThx/flatbuffers-25.2.10/src/binary_annotator.cpp:300-472 | a vtable has no other regions than its sizes and one for each entry |
| Shown.FieldRefers | SpecialThx/flatbuffers-25.2.10/src/binary_annotator.cpp:694-835 | a field whose offset, of four or eight bytes, is not zero and leads into the binary has a region at its place that refers there, as to what its type says; a union, as to what the type in front of it says |
| Shown.RefersFrom | SpecialThx/flatbuffers-25.2.10/src/binary_annotator.cpp:694-835 | and nothing else in a table refers to anything |
| Shown.TableRefersIff | SpecialThx/flatbuffers-25.2.10/src/binary_annotator.cpp:694-835 | so a table refers exactly to what its fields lead to, by schema and bytes |
| Shown.OffsetFieldErrorShown | SpecialThx/flatbuffers-25.2.10/src/binary_annotator.cpp:694-831 | an offset that is zero or cannot be read, or leads out of the binary, is shown as that error; a union without a usable type is not shown |
| Shown.InlineFieldShown | SpecialThx/flatbuffers-25.2.10/src/binary_annotator.cpp:592-748 | a number, a struct or an unknown field of a table is in its section, all of it |
| Shown.TablePaddingShown | SpecialThx/flatbuffers-25.2.10/src/binary_annotator.cpp:837-852 | a table is its offset to the vtable, its fields, and padding up to its end if that is two bytes or more |
| Shown.LoneTableShown | SpecialThx/flatbuffers-25.2.10/src/binary_annotator.cpp:506-540 | a table whose vtable is nowhere in the binary is one region that says so |
| Shown.LengthShown | SpecialThx/flatbuffers-25.2.10/src/binary_annotator.cpp:1058-1112 | the length of a vector, in error exactly as `WalkFacts.AcceptedIff` says, and which kind of section it is |
| Shown.ElementSizeIs | SpecialThx/flatbuffers-25.2.10/src/binary_annotator.h:389-401 | scalars count with their width, structs with their size, offsets with four bytes |
| Shown.ElementShown | SpecialThx/flatbuffers-25.2.10/src/binary_annotator.cpp:1124-1220 | every element of a vector of tables, or strings, that lies in the binary refers to a table of the type, or a string, where its offset leads, exactly if that is in the binary, and is in error else |
| Shown.UnionElementShown | SpecialThx/flatbuffers-25.2.10/src/binary_annotator.cpp:1224-1322 | every element of a vector of unions refers to what the type says that belongs to it, as long as it and those in front of it can be followed |
| Shown.UnionStepShown | SpecialThx/flatbuffers-25.2.10/src/binary_annotator.cpp:1264-1322 | what each kind of element that cannot be followed is shown as, and whether it is stepped over |
| Shown.NoTypesShown | SpecialThx/flatbuffers-25.2.10/src/binary_annotator.cpp:1230-1254 | a vector of unions without a field for its types has no elements; when the offset to them cannot be read, that is said once |
| Shown.TypesFoundIff | SpecialThx/flatbuffers-25.2.10/src/binary_annotator.cpp:1237-1262 | the types are looked for where they are exactly if they are less than 2^16 bytes behind their field |
| WalkFacts.HeaderFacts | SpecialThx/flatbuffers-25.2.10/src/binary_annotator.cpp:159-235 | header regions are in range, starting at 0 |
| WalkFacts.StringFacts | SpecialThx/flatbuffers-25.2.10/src/binary_annotator.cpp:973-1034 | the regions of a string are in range, whatever its length field says |
| WalkFacts.VTableFacts | SpecialThx/flatbuffers-25.2.10/src/binary_annotator.cpp:237-496 | the regions of a vtable are in range, and its entries carry the schema's own fields |
| WalkFacts.VTableEntriesStored | SpecialThx/flatbuffers-25.2.10/src/binary_annotator.cpp:352-474 | every entry holds the 16 bits at the place for its id, and every field of the schema that the vtable lists with an offset inside the binary has an entry |
| WalkFacts.FieldEntryIff | SpecialThx/flatbuffers-25.2.10/src/binary_annotator.cpp:352-474 | a field of the schema has an entry that carries it exactly if the vtable has a place for it and the offset there is inside the binary as seen from the table: no entry of another origin passes for one |
| WalkFacts.SharedIff | SpecialThx/flatbuffers-25.2.10/src/binary_annotator.cpp:237-248 | a vtable reads the same for two tables of a type, so that sharing it changes nothing, exactly if it lists the same fields as seen from both |
| WalkFacts.KnownListed | SpecialThx/flatbuffers-25.2.10/src/binary_annotator.cpp:355-436 | a field of the schema gets an entry exactly if the vtable has a place for it and the offset there is inside the binary |
| WalkFacts.VTableIds | SpecialThx/flatbuffers-25.2.10/src/binary_annotator.cpp:345-474 | ids of entries are 16-bit numbers |
| WalkFacts.TableOrderFacts | SpecialThx/flatbuffers-25.2.10/src/binary_annotator.cpp:570-581 | the fields are gone through by ascending offset, all of them |
| WalkFacts.TableFacts | SpecialThx/flatbuffers-25.2.10/src/binary_annotator.cpp:498-855 | through every branch the regions of a table are in range, and refer to where their bytes say: strictly forward, unless an offset of 64 bits wraps around |
| WalkFacts.TableFieldFacts | SpecialThx/flatbuffers-25.2.10/src/binary_annotator.cpp:584-835 | the same for one field |
| WalkFacts.ForwardIff | SpecialThx/flatbuffers-25.2.10/src/binary_annotator.cpp:696-740 | a reference of 64 bits leads in front of its own place exactly if its offset wraps around |
| WalkFacts.TableCoversFields | SpecialThx/flatbuffers-25.2.10/src/binary_annotator.cpp:583-835 | no field that is present is passed over: each whose offset is in the binary has a region there, a union unless its offset is good and its type is not |
| WalkFacts.UnionFieldIff | SpecialThx/flatbuffers-25.2.10/src/binary_annotator.cpp:788-831 | a union field gets a region at its place exactly if its offset is unusable, or its type can be read and is valid |
| WalkFacts.StructFacts | SpecialThx/flatbuffers-25.2.10/src/binary_annotator.cpp:857-971 | a struct stays in range, makes progress if it starts inside the binary, and refers to nothing |
| WalkFacts.VectorFacts | SpecialThx/flatbuffers-25.2.10/src/binary_annotator.cpp:1036-1381 | through every branch the regions of a vector are in range and refer strictly forward, and none reports a cycle |
| WalkFacts.VectorComplete | SpecialThx/flatbuffers-25.2.10/src/binary_annotator.cpp:1083-1223 | a vector of scalars or offsets whose elements lie in the binary has one region for each, end to end behind its length |
| WalkFacts.AcceptedIff | SpecialThx/flatbuffers-25.2.10/src/binary_annotator.cpp:1085-1103 | a length is accepted exactly if all elements lie in the binary, or where they would end wraps around 64 bits to a place in it |
| WalkFacts.UnionElementsComplete | SpecialThx/flatbuffers-25.2.10/src/binary_annotator.cpp:1264-1322 | a vector of unions gets one region for each element, end to end, exactly if every element can be followed, or is the last and leads out of the binary |
| WalkFacts.BadOffsetRepeats | SpecialThx/flatbuffers-25.2.10/src/binary_annotator.cpp:1283-1292 | an offset that leads out of the binary is not stepped over: the same region comes again for every element that is left |
| WalkFacts.VectorRefers | SpecialThx/flatbuffers-25.2.10/src/binary_annotator.cpp:1109-1323 | what an element of a vector refers to is of the vector's own kind, and a union's value is valid for the enum of its types |
| WalkFacts.OffsetElementsFacts | SpecialThx/flatbuffers-25.2.10/src/binary_annotator.cpp:1124-1223 | offsets in vectors lead strictly forward, so the branch for a cycle is never taken |
| WalkFacts.UnionElementsFacts | SpecialThx/flatbuffers-25.2.10/src/binary_annotator.cpp:1264-1322 | the same for unions |
| Sections.AddEffect | SpecialThx/flatbuffers-25.2.10/src/binary_annotator.h:352-354 | the map stays in order, keeps what it had, and has the section afterwards unless its key was taken |
| Sections.ContainsIsSound | SpecialThx/flatbuffers-25.2.10/src/binary_annotator.cpp:1502-1517 | the lookup never claims a section that is not there |
| Sections.IndexIsScanIff | SpecialThx/flatbuffers-25.2.10/src/binary_annotator.cpp:1502-1517 | the lookup finds what scanning all sections finds exactly if no section sticks out between the end of a later one and the next key |
| Sections.MissedOffset | SpecialThx/flatbuffers-25.2.10/src/binary_annotator.cpp:1502-1517 | an offset that a scan finds and the lookup does not, when a section sticks out |
| Sections.DisjointIsExact | SpecialThx/flatbuffers-25.2.10/src/binary_annotator.cpp:1502-1517 | for disjoint sections the lookup equals the scan |
| Gaps.FixRegions | SpecialThx/flatbuffers-25.2.10/src/binary_annotator.cpp:1428-1464 | the loop over the regions of a section gives `Gaps.Filled` |
| Gaps.FilledKeeps | SpecialThx/flatbuffers-25.2.10/src/binary_annotator.cpp:1419-1466 | whatever the regions: all are kept, only gaps are added, and all stay in range |
| Gaps.FilledIsTiled | SpecialThx/flatbuffers-25.2.10/src/binary_annotator.cpp:1458-1464 | for ascending disjoint regions, appending the gaps and sorting stably puts each gap where it belongs, behind empty regions at its offset |
| Gaps.FilledIsTiling | SpecialThx/flatbuffers-25.2.10/src/binary_annotator.cpp:1419-1466 | ascending disjoint regions become a contiguous tiling of the same extent: all kept in order, with exactly one region for each gap |
| Gaps.TilesSplit | SpecialThx/flatbuffers-25.2.10/src/binary_annotator.cpp:1461-1462 | among regions at one offset the gap comes last: why the sort must be stable |
| Gaps.FilledCoversIff | SpecialThx/flatbuffers-25.2.10/src/binary_annotator.cpp:1428-1464 | however regions overlap: exactly the bytes from the first region on that some region inside the binary reaches over are in a region after filling |
| Gaps.GapsCover | SpecialThx/flatbuffers-25.2.10/src/binary_annotator.cpp:1428-1457 | every byte up to the end of some region inside the binary is in a region or in a gap |
| StableSorting.StableSortUnique | SpecialThx/flatbuffers-25.2.10/src/binary_annotator.cpp:1461-1462 | two stable sorts of a list are equal, so it does not matter which one the library uses |
| StableSorting.StableSortIsStable | SpecialThx/flatbuffers-25.2.10/src/binary_annotator.cpp:578-581 | the sort that is modelled is one |
| SectionGaps.FindMissing | SpecialThx/flatbuffers-25.2.10/src/binary_annotator.cpp:1468-1495 | the loop with its running offset gives `SectionGaps.Missing`, and `offset - 1` never underflows |
| SectionGaps.MissingExact | SpecialThx/flatbuffers-25.2.10/src/binary_annotator.cpp:1473-1495 | the inserted sections are exactly those for the gaps of two bytes or more, the tail included, each of the whole gap |
| SectionGaps.AddingIsChaining | SpecialThx/flatbuffers-25.2.10/src/binary_annotator.cpp:1497-1499 | none of them is dropped by the map, and each comes behind the section it is missing behind |
| SectionGaps.ChainFacts | SpecialThx/flatbuffers-25.2.10/src/binary_annotator.cpp:1468-1500 | afterwards nothing but a single byte is left out between a section and the next, or the end |
| SectionGaps.ChainDisjoint | SpecialThx/flatbuffers-25.2.10/src/binary_annotator.cpp:1468-1500 | disjoint sections stay disjoint: what is inserted overlaps nothing |
| SectionGaps.ByteInSection | SpecialThx/flatbuffers-25.2.10/src/binary_annotator.cpp:1468-1500 | every byte is in the last section that starts before it, or is a lone byte behind it |
| Finished.AnnotationIsSound | SpecialThx/flatbuffers-25.2.10/src/binary_annotator.cpp:143-149 | what the walk leaves behind is in order, in range, starts at 0 and refers forward: all that finishing relies on |
| Finished.EveryRegionInRange | SpecialThx/flatbuffers-25.2.10/src/binary_annotator.cpp:122-157 | in the finished annotation of any binary every region that is not empty lies inside the binary, none before its section, and none reports a cycle |
| Finished.EveryReferenceStored | SpecialThx/flatbuffers-25.2.10/src/binary_annotator.cpp:122-157 | every reference to a table, string, vector or union stays inside the binary and is what the bytes of its region say; it leads strictly forward, unless an offset of 64 bits wraps around (`Finished.EveryVTableAnnotated` is about those to vtables) |
| Finished.ReferencesResolved | SpecialThx/flatbuffers-25.2.10/src/binary_annotator.cpp:143-149 | every reference to a table, string, vector or union that was found good leads to something annotated; only a table may be missing, and then its vtable's location is inside a section that is not that of a readable vtable there |
| Finished.RootTableStored | SpecialThx/flatbuffers-25.2.10/src/binary_annotator.cpp:143-149 | the root table, with the vtable its offset leads to, is annotated as one of the root type, and so is that vtable, if both lie behind the header and the vtable can be read |
| Finished.RootTableIff | SpecialThx/flatbuffers-25.2.10/src/binary_annotator.cpp:143-149 | there is a section at the root offset, when that is behind the header, exactly if the root's vtable is nowhere in the binary, or where the table is, or is behind the header and can be read: from the bytes alone |
| Finished.OnlyHeader | SpecialThx/flatbuffers-25.2.10/src/binary_annotator.cpp:498-520 | with the root offset or the location of its vtable inside the header, the header is all that is annotated |
| Finished.EveryVTableAnnotated | SpecialThx/flatbuffers-25.2.10/src/binary_annotator.cpp:498-545 | the vtable of every table section, at the distance that its first four bytes hold, can be read and has a section of its own, and both are in the finished annotation |
| Finished.NothingIsLost | SpecialThx/flatbuffers-25.2.10/src/binary_annotator.cpp:151-157 | filling gaps loses and changes no section and no region |
| Finished.EveryByteAccounted | SpecialThx/flatbuffers-25.2.10/src/binary_annotator.cpp:151-157 | every byte is in a region, but for lone bytes between sections, and bytes of sections whose last region starts outside the binary |
| Finished.SectionCoversIff | SpecialThx/flatbuffers-25.2.10/src/binary_annotator.cpp:1419-1466 | which bytes a section takes in after filling, exactly, in terms of its regions before |
| Finished.ByteAnnotatedIff | SpecialThx/flatbuffers-25.2.10/src/binary_annotator.cpp:151-157 | a byte is in a region in the end exactly if a region inside the binary of some section reaches over it, or it is in a gap of two bytes or more between filled sections |
| Finished.EveryFieldAnnotated | SpecialThx/flatbuffers-25.2.10/src/binary_annotator.cpp:345-855 | every table section in the end belongs to a table that is reached, with entries as its vtable stores them, those for fields of the schema exactly the ones it lists as seen from a table that is reached, a region for every field that is present, unions as `WalkFacts.UnionFieldIff` says, and one that refers to what it leads to for every field that leads somewhere |
| Instances.FlatAnnotation | SpecialThx/flatbuffers-25.2.10/src/binary_annotator.cpp:122-157 | with a schema of tables that refer to nothing, the annotation is exactly the header, the root table and its vtable |
| Instances.LoneByteIsLeftOut | SpecialThx/flatbuffers-25.2.10/src/binary_annotator.cpp:1471-1480 | in every annotation of these binaries the byte between the vtable and the root table is in no region |
| Instances.AnnotateLone | SpecialThx/flatbuffers-25.2.10/src/binary_annotator.cpp:122-157 | a binary on which the annotator does leave that byte out |
| Instances.StrayBytesAreLost | SpecialThx/flatbuffers-25.2.10/src/binary_annotator.cpp:801-813 | in every annotation of these binaries, whose union lists its type just behind the binary, the last eight bytes are in no region |
| Instances.PrefixedSections | SpecialThx/flatbuffers-25.2.10/src/binary_annotator.cpp:159-203 | in every annotation of these binaries, with a size in front, the root table is where the root offset leads from behind the size |
| Instances.AnnotatePrefixed | SpecialThx/flatbuffers-25.2.10/src/binary_annotator.cpp:122-157 | a binary of which the annotator finds the root table there |
| Instances.RootTableIsLost | SpecialThx/flatbuffers-25.2.10/src/binary_annotator.cpp:250-253 | in every annotation of these binaries, whose root table has its vtable inside the header, no section is at the root offset or reaches over it |
| Instances.AnnotateHidden | SpecialThx/flatbuffers-25.2.10/src/binary_annotator.cpp:122-157 | a binary of which the annotator does lose its root table |
| Instances.LoneIsOrdinary | SpecialThx/flatbuffers-25.2.10/src/binary_annotator.cpp:122-157 | a binary, which has a lone byte, whose sections do not overlap |
| Instances.AnnotateStray | SpecialThx/flatbuffers-25.2.10/src/binary_annotator.cpp:122-157 | a binary of which the annotator does lose them |
| Instances.TableSticksOut | SpecialThx/flatbuffers-25.2.10/src/binary_annotator.cpp:1502-1517 | in every annotation of these binaries the table reaches over its own vtable, and the lookup misses an offset that a scan finds |
| Instances.AnnotateSticking | SpecialThx/flatbuffers-25.2.10/src/binary_annotator.cpp:122-157 | a binary for which that is so |
| Ordinary.EverythingReached | SpecialThx/flatbuffers-25.2.10/src/binary_annotator.cpp:122-157 | if what the binary prescribes for all that is reached from the root does not overlap, and vtables can be read, every prescribed section is there, at its own offset, of its own kind, and, but for vtables, which tables of several types can share, with its own regions |
| Ordinary.TableAnnotated | SpecialThx/flatbuffers-25.2.10/src/binary_annotator.cpp:498-855 | then every table that is reached has its section, with the regions of its own vtable, and no vtable is blocked |
| Ordinary.ReferenceAnnotated | SpecialThx/flatbuffers-25.2.10/src/binary_annotator.cpp:498-1399 | and whatever it refers to, be it through a vector, has a section of its own kind at the offset that the reference leads to |
| Ordinary.FieldAnnotated | SpecialThx/flatbuffers-25.2.10/src/binary_annotator.cpp:694-835 | then every field that leads somewhere, by schema and bytes, leads to a section of the kind that it is for |
| Ordinary.ElementAnnotated | SpecialThx/flatbuffers-25.2.10/src/binary_annotator.cpp:1124-1220 | and so does every element of a vector of tables or strings whose offset leads into the binary |
| Ordinary.UnionAnnotated | SpecialThx/flatbuffers-25.2.10/src/binary_annotator.cpp:1224-1322 | and every element of a vector of unions, as long as it and those in front of it can be followed |
| Ordinary.TableThere | SpecialThx/flatbuffers-25.2.10/src/binary_annotator.cpp:498-855 | every table that can be reached from the root, in any number of steps, is annotated |
| Ordinary.OrdinaryIsDisjoint | SpecialThx/flatbuffers-25.2.10/src/binary_annotator.cpp:151-157 | no two sections of such an annotation overlap, before gaps are filled and after, and the lookup misses none |
| Finished.FinishDisjoint | SpecialThx/flatbuffers-25.2.10/src/binary_annotator.cpp:151-157 | without overlaps before, there are none in the result |
| Shortfalls.PaddingIsLeftOut | SpecialThx/flatbuffers-25.2.10/src/binary_annotator.cpp:958-968 | a struct whose padding ends where the binary ends: the padding gets no region |
| Shortfalls.UnionIsLeftOut | SpecialThx/flatbuffers-25.2.10/src/binary_annotator.cpp:788-831 | a union with a good offset and a type that its enum does not have: no region |
| Shortfalls.BadOffsetIsRepeated | SpecialThx/flatbuffers-25.2.10/src/binary_annotator.cpp:1283-1292 | a vector of three unions, the first with an offset out of the binary: three times the same region |
| Shortfalls.OffsetLeadsBack | SpecialThx/flatbuffers-25.2.10/src/binary_annotator.cpp:696-740 | a string with a 64-bit offset that leads back to the start of the binary |
| Shortfalls.TypesAreMissed | SpecialThx/flatbuffers-25.2.10/src/binary_annotator.cpp:1237-1262 | the types of unions 65540 bytes behind their field are looked for four bytes behind it |
| Shortfalls.SharedVTableDiffers | SpecialThx/flatbuffers-25.2.10/src/binary_annotator.cpp:237-248 | a vtable whose one offset is inside the binary as seen from one table and not as seen from another reads differently for them |
| Shortfalls.LengthWrapsAround | SpecialThx/flatbuffers-25.2.10/src/binary_annotator.cpp:1085-1103 | a vector of 2^61 numbers of eight bytes is accepted in a binary of sixteen bytes |
| StructBodies.GenStructBody | SpecialThx/flatbuffers-25.2.10/src/idl_gen_csharp.cpp:550-605 | appends exactly the statements of `StructBodies.Body`, with every argument indexed by all loops around it |
| StructBodies.GenField | SpecialThx/flatbuffers-25.2.10/src/idl_gen_csharp.cpp:566-602 | the same for one field |
| StructBodies.GenPut | SpecialThx/flatbuffers-25.2.10/src/idl_gen_csharp.cpp:586-600 | the list of loop variables is never left out where it is needed |
| StructBodies.ExecBody | SpecialThx/flatbuffers-25.2.10/src/idl_gen_csharp.cpp:550-605 | run on a back-to-front builder, the code writes the struct's image in front of what is there, with the padding that aligns it in between |
| StructBodies.ExecFields | SpecialThx/flatbuffers-25.2.10/src/idl_gen_csharp.cpp:559-604 | inside an aligned struct no Prep adds anything: fields and their padding come out front to back |
| StructBodies.ExecType | SpecialThx/flatbuffers-25.2.10/src/idl_gen_csharp.cpp:566-602 | the same for one field, with loops counting down over arrays |
| StructBodies.AlignedWithin | SpecialThx/flatbuffers-25.2.10/src/idl_gen_csharp.cpp:554-556 | with alignments that are powers of two, a nested struct at a multiple of its alignment is aligned when the outer one is |
| StructBodies.ImageSize | SpecialThx/flatbuffers-25.2.10/src/idl_parser.cpp:883-892 | the image is as large as the struct is declared |
| StructReading.WriterAndReaderAgree | SpecialThx/flatbuffers-25.2.10/src/idl_gen_csharp.cpp:550-605 | reading forward over what the code wrote gives every argument at its own place, found from the way to it and its indices, with its value, and blank padding, in order, and nothing else; only the outermost Prep adds bytes |
| StructReading.ReadsIff | SpecialThx/flatbuffers-25.2.10/src/binary_annotator.cpp:857-971 | the reader finds all fields and all padding exactly if the struct does not end in padding where the binary ends |
| StructReading.WalkReads | SpecialThx/flatbuffers-25.2.10/src/binary_annotator.cpp:857-971 | a struct that fits is read item by item at the declared offsets |
| StructReading.WalkFallsShort | SpecialThx/flatbuffers-25.2.10/src/binary_annotator.cpp:958-968 | of a struct that ends in padding where the binary ends, all is read but that last padding, through nested structs and arrays |
| StructReading.ItemsHold | SpecialThx/flatbuffers-25.2.10/src/idl_gen_csharp.cpp:550-605 | every item of the image holds its argument, least significant byte first, or zeros |
| StructReading.ArgumentIsAt | SpecialThx/flatbuffers-25.2.10/src/idl_gen_csharp.cpp:559-604 | each argument is behind the fields and padding in front of its field, and each element of an array behind those in front of it, through nested structs |
| StructReading.FieldAtOffset | SpecialThx/flatbuffers-25.2.10/src/idl_parser.cpp:883-892 | the items of a field are at the sum of the sizes and paddings before it |
| StructReading.VectorOfStructs | SpecialThx/flatbuffers-25.2.10/src/binary_annotator.cpp:1115-1122 | a vector of structs in the binary gives every field of every struct and all padding exactly if it does not end in padding where the binary ends |
| Namespaces.NamespaceEmitter.SetNameSpace | SpecialThx/flatbuffers-25.2.10/src/idl_gen_cpp.cpp:4067-4104 | whatever was current, what is open afterwards is exactly the new namespace's components, well nested, with as many tokens as the two differ in |
| Namespaces.NamespaceEmitter.GenerateFile | SpecialThx/flatbuffers-25.2.10/src/idl_gen_cpp.cpp:455-735 | over any sequence of calls, with null at the end, every namespace that was opened is closed, innermost first |
| Namespaces.CommonPrefix | SpecialThx/flatbuffers-25.2.10/src/idl_gen_cpp.cpp:4082-4087 | the loop finds the length of the longest common prefix |
| Namespaces.CloseTo | SpecialThx/flatbuffers-25.2.10/src/idl_gen_cpp.cpp:4089-4094 | closes innermost first, down to the prefix |
| Namespaces.OpenFrom | SpecialThx/flatbuffers-25.2.10/src/idl_gen_cpp.cpp:4096-4101 | opens outermost first, from the prefix |
| Namespaces.NoShorterWay | SpecialThx/flatbuffers-25.2.10/src/idl_gen_cpp.cpp:4067-4069 | no sequence of tokens gets from one namespace to the other with fewer |
| Namespaces.Balanced | SpecialThx/flatbuffers-25.2.10/src/idl_gen_cpp.cpp:4070-4071 | from null to null as many namespaces are closed as opened |
| EnumTables.GenEnumStringTable | SpecialThx/flatbuffers-25.2.10/src/idl_gen_cpp.cpp:1528-1582 | a table exactly if the range is less than five times the number of values, else a switch; either way every value gets its own name and every other integer a blank one |
| EnumTables.GenNames | SpecialThx/flatbuffers-25.2.10/src/idl_gen_cpp.cpp:1539-1546 | every value's name is at its distance from the least, and every hole is blank |
| EnumTables.GenTable | SpecialThx/flatbuffers-25.2.10/src/idl_gen_cpp.cpp:1534-1566 | as many entries as declared, range and two, with null at the end |
| EnumTables.TableIsSwitch | SpecialThx/flatbuffers-25.2.10/src/idl_gen_cpp.cpp:1553-1566 | table and switch give every integer the same name, negative values included |
| EnumTables.IndexExact | SpecialThx/flatbuffers-25.2.10/src/idl_gen_cpp.cpp:1558-1563 | the index computed in 64 bits is the distance from the least value |
| EnumTables.DistanceExact | SpecialThx/flatbuffers-25.2.10/src/idl_parser.cpp:306-311 | the distance computed in unsigned 64 bits is exact for signed and for unsigned enums |
| ProtoIds.MapProtoIdsToFieldsId | SpecialThx/flatbuffers-25.2.10/src/idl_gen_fbs.cpp:186-239 | nothing to map without ids; none if a check fails or a field has no id; otherwise ids given out along a sorted order; and if 16 bits hold the ids of all fields and of one more for each union, all ids differ, those below unions are free, and fields keep the order of their proto ids, unions without one in front |
| ProtoIds.ProtobufIdSanityCheck | SpecialThx/flatbuffers-25.2.10/src/idl_gen_fbs.cpp:132-175 | passes exactly if all ids are 16-bit numbers, none reserved, none used twice, and, when gaps are errors, there is no hole |
| ProtoIds.ExtractProtobufIds | SpecialThx/flatbuffers-25.2.10/src/idl_gen_fbs.cpp:94-108 | the ids that are numbers, in field order |
| ProtoIds.HasTwiceUsedId | SpecialThx/flatbuffers-25.2.10/src/idl_gen_fbs.cpp:110-119 | neighbours in order are equal exactly if two ids are the same |
| ProtoIds.HasGapInProtoId | SpecialThx/flatbuffers-25.2.10/src/idl_gen_fbs.cpp:121-130 | neighbours differ by something else than one exactly if two ids are the same or a number between two ids is missing |
| ProtoIds.SomeIds | SpecialThx/flatbuffers-25.2.10/src/idl_gen_fbs.cpp:110-115 | the lists that the checks sort are not empty when they get there |
| ProtoIds.SortFields | SpecialThx/flatbuffers-25.2.10/src/idl_gen_fbs.cpp:225-229 | a sorted permutation of the fields, no more: the sort need not be stable |
| ProtoIds.AssignIds | SpecialThx/flatbuffers-25.2.10/src/idl_gen_fbs.cpp:232-236 | each field gets its place, and a union the place above one that it leaves free, in 16 bits |
| ProtoIds.SlotsAre | SpecialThx/flatbuffers-25.2.10/src/idl_gen_fbs.cpp:232-236 | the ids take as many places as there are fields, and unions once more |
| ProtoIds.IdsApart | SpecialThx/flatbuffers-25.2.10/src/idl_gen_fbs.cpp:225-236 | while 16 bits hold them: ids differ, the one below a union is no field's, and a field with a smaller proto id has a smaller id, a union without one before all others, a field without one before those with a positive one |
| ProtoIds.IdsFillUp | SpecialThx/flatbuffers-25.2.10/src/idl_gen_fbs.cpp:232-236 | and with those below unions they are exactly 0 to the last |
| ProtoIds.DistinctIff | SpecialThx/flatbuffers-25.2.10/src/idl_gen_fbs.cpp:232-236 | all ids that are taken are different exactly if 16 bits hold them |
| FieldOrder.FieldIdToIndex | SpecialThx/flatbuffers-25.2.10/src/bfbs_gen.h:60-73 | under each id the index of the field that has it |
| FieldOrder.ForAllFields | SpecialThx/flatbuffers-25.2.10/src/bfbs_gen.h:181-188 | calls back in the order of ids, or against it |
| FieldOrder.VisitsEachOnce | SpecialThx/flatbuffers-25.2.10/src/bfbs_gen.h:181-188 | every field is visited, and none twice |
| FieldOrder.GenBuilder | SpecialThx/flatbuffers-25.2.10/src/idl_gen_cpp.cpp:3063-3081 | adds every field that is not deprecated once, if of size 1, 2, 4 or 8 when sorting, larger ones first and later ones first within a size; without sorting all, last declared first |
| FieldOrder.AddFields | SpecialThx/flatbuffers-25.2.10/src/idl_gen_cpp.cpp:3066-3080 | the fields of one size, last declared first |
| FieldOrder.BuildOrderUnique | SpecialThx/flatbuffers-25.2.10/src/idl_gen_cpp.cpp:3063-3081 | there is only one such order |
| Bytes.LERoundTrip | LibraryNet/Encoder.cpp:50-55 | an n-byte little-endian field holds a number modulo 256^n |

## Left out

- Names, comments, hints and default labels of regions and sections, and `array_length`: regions keep offset, length, type,
  status and what they refer to.
- Annotate: sums with offsets of 32 bits and less do not wrap around, as no binary is that large; offsets of 64 bits and lengths of
  vectors do. A negative difference is an invalid read.
- The verification of the schema and the reflection runtime: schemas are values that satisfy `Schema.WellFormed`; fields are
  held in id order, struct nesting is a finite tree, and every struct has a field. An object whose flag says that it is no
  struct is not passed to `BuildStruct`.
- BuildUnionElements: a vtable entry without a field, where the types of a vector of unions should be, makes the source follow
  a null pointer; the model takes the type for invalid.
- The second branch for a vtable that cannot be read, behind its first two bytes: with a size of at least 4 that lies in the
  binary it is never taken.
- Allocate: the memory of a stream is a sequence of bytes and not an array: `malloc` and `realloc` yield arbitrary bytes behind those
  that are kept, and `free` is not modelled. `nextPow2` has its integer meaning; floating point is not modelled.
- Decode: the transformations of derived encoders (encryption, compression) are a pair of functions; `doDecode` does not throw, and
  leaves at least the header's bytes. `limitSize` is a predicate on sizes. The integers of a frame are little-endian.
- `SendQueue::buffers`, `front` and `popFront`, of which no definition is part of the repository, and `TCPSession`,
  `TCPAcceptor`, listeners, handlers and threads: the socket is a step that moves bytes.
- GenStructBody: blank lines, indentation, argument types and names in generated code. An argument of the struct emitter is known by the way
  to its field, so that names which become equal once joined are not modelled; loops hold their bodies instead of opening and
  closing braces.
- ExecBody: the C# builder's class is not part of the repository. `Prep` pads until what is written and what is announced are a
  multiple of the alignment, `Pad` writes zeros, and a put writes the low bytes of its argument.
- GenEnumStringTable: does not take the declared size of the table modulo 2^64, which would need as many values.
- MapProtoIdsToFieldsId: does not parse id attributes; an id is a 16-bit number or not. Names of fields are their positions, so they are unique.
- All other generators, the command line, files, logging, time and date.
