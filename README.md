# ASF demultiplexer and colour parser, modelled in Dafny

This project models two parts of the media plugin's native code.

- **The ASF parser and frame reader** (`src/asf/asf.cpp`). `ASFParser` reads the header of an
  Advanced Systems Format file: a preamble, then GUID-typed header objects (file properties,
  stream properties, header extension, marker, script command, …), then the data object. It
  keeps a 127-slot stream table and an append-only chain of error messages. It reads data
  packets by index. `ASFFrameReader` assembles frames: it keeps a queue of payloads taken from
  the packets and joins the payloads of one stream and one media object into a frame. It takes
  the frames of the script-command stream out of the stream of frames and hands their two
  UTF-16 strings to a callback. It seeks by presentation time in two passes.
- **`solid_brush_from_str`** (`src/brush.cpp`). It turns `#rgb`, `#argb`, `#rrggbb`,
  `#aarrggbb` and the names of the built-in colour table into a colour. It gives NULL for
  anything else except a `#` string of another length, which is white.

Module layout, following the source:

| file | module | models |
|---|---|---|
| `asf_core.dfy` | `AsfCore` | integer widths, the little-endian fields of header objects, payload records, the `asf.h` routines (`Hooks`) |
| `asf_source.dfy` | `AsfSource` | the error chain (a class with a `seq` of messages), the byte source, `ASFSource::ReadEncoded` |
| `asf_layout.dfy` | `AsfLayout` | `packet_offset` arithmetic, `GetPacketOffset`, `GetPacketIndex` |
| `asf_packet.dfy` | `AsfPacket` | `ASFPacket`'s payload lookups, the outcome of `ReadPacket`, the scan of `GetPacketIndexOfPts` |
| `asf_header.dfy` | `AsfHeader` | the header rules `ReadHeader` enforces, as functions over the kinds of the objects read |
| `asf_parser.dfy` | `AsfParser` | `ASFParser` as a class with the source's fields |
| `asf_frames.dfy` | `AsfFrames` | `ASFFrameReader`'s operations as functions of a reader value: walk, `Advance`, the script-command scan, `Seek` |
| `asf_reader.dfy` | `AsfReader` | `ASFFrameReader` as a class: queue as a `seq`, payload list as an `array`, each method proved against its `AsfFrames` function |
| `brush.dfy` | `Brush` | `solid_brush_from_str` and a formatter for its round trip |

The routines of `asf.h` that the core calls are parameters of the model, collected in the
`Hooks` value: the GUID registry and GUID-to-text conversion, the header and object
validators, and the packet decoder (error-correction data, payload-parsing information and
the multiple-payload reader). The embedder's stream is a fixed byte sequence with a position
and a seekable flag. The callback is modelled as the log of the commands handed to it.

Some behaviour of the code is easy to overlook, and the model keeps it:

- `Seek` stops counting at the first frame whose pts passes the target. The key-frame test
  cannot change that, because `found` starts true (`asf.cpp:767`). `Seek` never fails for
  "not found", and it can land on a frame that is not a key frame.
- `Advance` does not drop payloads below `first_pts`, because that branch is `if (false && …)`
  (`asf.cpp:888`). `AsfFrames.AdvanceIgnoresFirstPts` proves that `first_pts` plays no part.
- `GetPacketIndexOfPts` scans packets with `ReadPacket` and `GetPts`. It does not walk frames.
- `ReadHeader` rejects a second file-properties, header-extension, marker or script-command
  object. A header object may declare a size below the 24-byte envelope.

Where the code is evidently wrong (the rows under "## Findings"), the operations of the
classes use the corrected definition. `AsfParser.Parser.ReadPacket` and everything that reads
through it use the 64-bit packet offset. `AsfReader.FrameReader.Advance` restarts after a
script-command frame for the stream its caller asked for. The code as written is modelled
beside them (`PacketOffsetAsWritten`, `AdvanceAsWritten`), and "## Left out" names each member
that follows a corrected definition.

## Model

| member | source | states |
|---|---|---|
| `AsfCore.StreamNumber` | src/asf/asf.cpp:317-320 | the stream number a stream-properties object registers under is below 128 (low 7 bits of its flags) |
| `AsfSource.ErrorChain.AddError` | src/asf/asf.cpp:405-427 | the message is appended after every earlier one, which all stay as they were |
| `AsfSource.ErrorChain.GetLastError` | src/asf/asf.cpp:390-402 | NULL exactly when no error was added; otherwise the most recently added message |
| `AsfSource.ByteSource.Read` | src/asf/asf.cpp:583-586 | all `n` bytes at the position and the position moves past them, or failure with the position unchanged |
| `AsfSource.ByteSource.Seek` | src/asf/asf.cpp:570-579 | succeeds exactly for the current position or, on a seekable source, a position inside the data, and then stands there |
| `AsfSource.ReadEncodedAt` | src/asf/asf.cpp:589-613 | code 0 reads nothing and succeeds; codes 1, 2, 3 read 1, 2, 4 little-endian bytes, fail without moving when too few remain, and leave the destination unchanged on failure; any other code fails |
| `AsfSource.ByteSource.ReadEncoded` | src/asf/asf.cpp:589-613 | the read is `ReadEncodedAt` at the position; a code above 3 adds "Invalid read length: n." to the chain and nothing else does |
| `AsfLayout.LayoutOf` | src/asf/asf.cpp:377-379 | the first packet starts after the header and the 50-byte data object, and `packet_offset_end` adds count × size when that fits in 64 bits |
| `AsfLayout.PacketOffset` | src/asf/asf.cpp:456-465 | 0 for an index outside the packet count taken as an `int` |
| `AsfLayout.PacketWithinData` | src/asf/asf.cpp:456-465 | a valid packet starts at or after `packet_offset`, which is positive, and ends by `packet_offset_end`, while the data section fits in 64 bits |
| `AsfLayout.PacketOffsetIncreasing` | src/asf/asf.cpp:456-465 | with a positive packet size, offsets strictly increase with the index |
| `AsfLayout.PacketIndex` | src/asf/asf.cpp:468-477 | -1 before the first packet, the packet count past `packet_offset_end`; needs a positive packet size between the two (see "## Left out") |
| `AsfLayout.PacketIndexOfOffset` | src/asf/asf.cpp:456-477 | `GetPacketIndex (GetPacketOffset (i)) == i` for every valid index `i` |
| `AsfLayout.AsWrittenBelow4GiB` | src/asf/asf.cpp:456-465 | the offset as written agrees with the 64-bit one while the product stays below 2^32 |
| `AsfLayout.AsWrittenRoundTripFails` | src/asf/asf.cpp:456-477 | with 65537 packets of 64 KiB, packet 65536 as written starts where packet 0 does, so the offset/index round trip fails |
| `AsfPacket.GetPayloadCount` | src/asf/asf.cpp:632-638 | 0 for a packet without payloads, else the number of payloads |
| `AsfPacket.GetPayload` | src/asf/asf.cpp:641-647 | the payload at a 0-based index exactly when the index is inside the packet, otherwise NULL |
| `AsfPacket.GetFirstPayload` | src/asf/asf.cpp:663-676 | the first payload of the stream; NULL exactly when there is no such payload or no payload list |
| `AsfPacket.FirstPts` | src/asf/asf.cpp:650-660 | the pts of the first payload of the stream, ULLONG_MAX when the stream has none |
| `AsfPacket.GetPts` | src/asf/asf.cpp:650-660 | ULLONG_MAX for a packet with no payload list, otherwise `FirstPts` of its payloads |
| `AsfPacket.DecodeAt` | src/asf/asf.cpp:204-237 | a read uses at least one byte and stays inside the data; a failed read yields no payloads and leaves the position |
| `AsfPacket.ReadPacketAt` | src/asf/asf.cpp:189-201 | a negative index decodes at the current position; a non-negative one decodes at `GetPacketOffset (index)` when that is not 0 and the source stands there or can seek there, and otherwise fails without moving; a failed read yields no payloads |
| `AsfPacket.ReadPacketByIndex` | src/asf/asf.cpp:189-201 | packet `i` of the layout `ReadHeader` computes is decoded from the header size + 50 + `i` × `min_packet_size`, which lies inside the data |
| `AsfPacket.IndexOfPtsStops` | src/asf/asf.cpp:480-501 | on a seekable source the scan stops at the first packet `j` that is not below `pts`, answering `j - 1` when packet `j` passes `pts` and -1 when it cannot be read or lacks the stream |
| `AsfPacket.AsWrittenDereferencesNull` | src/asf/asf.cpp:482-488 | for two packets with pts 5 and 9 asked for pts 6, the intended scan answers packet 0, while the code as written dereferences its NULL packet |
| `AsfParser.Parser.constructor` | src/asf/asf.cpp:58-88 | no header, objects, data or offsets; an empty error chain; all 127 stream slots NULL |
| `AsfParser.Parser.Malloc` | src/asf/asf.cpp:119-145 | a block is granted exactly when a header is loaded and 0 < size < the header's size; only a 0-byte request adds "Out of memory." |
| `AsfParser.Parser.ReadObject` | src/asf/asf.cpp:148-186 | unknown GUID: NULL and "Unrecognized guid: …"; refused size: NULL and "Header corrupted (id: …)"; otherwise the body is read after the envelope, and the object is returned exactly when the read and the validator succeed; a rejecting validator's messages are added, and a returned object has moved the source past its bytes; the object and the messages are `ReadObjectAt` of the envelope at the source's position |
| `AsfParser.ObjectAtBytes` | src/asf/asf.cpp:309-315 | an object the round at byte `at` reads is the data's bytes from `at` on, starting with its 24-byte envelope, and adds no message |
| `AsfParser.ReadInOrderAppend` | src/asf/asf.cpp:308-315 | objects read in order grow by one exactly when the next object is the one read where the others end |
| `AsfParser.ObjectLoopSkips` | src/asf/asf.cpp:308-356 | rounds that read objects in order without repeating a singleton are steps of the object loop: the loop from its start is the loop from where those objects end, with them read |
| `AsfParser.ObjectLoopCompletes` | src/asf/asf.cpp:308-356 | a loop that reads every declared object in order without a repeated singleton keeps them all and adds no message |
| `AsfParser.ObjectLoopFails` | src/asf/asf.cpp:308-315 | a loop whose round fails where the objects read in order end, short of the declared count and without a duplicate, keeps those objects and adds that round's messages |
| `AsfParser.ObjectLoopRejects` | src/asf/asf.cpp:323-353 | a loop whose last object read, and only it, repeats a singleton keeps that object and adds its "Multiple …" message |
| `AsfParser.ObjectLoopStopped` | src/asf/asf.cpp:308-356 | a loop that keeps fewer objects than declared and no repeated singleton stopped on a failed round where its objects end, with that round's messages |
| `AsfParser.Parser.ReadNextObject` | src/asf/asf.cpp:309-315 | the object and the messages are `ObjectAt` at the source's position; an object moves the source past its bytes, and a failure is a failed round there |
| `AsfParser.Parser.ReadRound` | src/asf/asf.cpp:309-353 | one round of the loop: success adds one object with no duplicate and no message; a failed read keeps the objects and is a failed round where they end; a repeated singleton keeps the object and adds its message; the objects stay read in order from the loop's start |
| `AsfParser.Parser.ObjectRounds` | src/asf/asf.cpp:307-356 | the rounds of the loop from where the source stood: the objects are read in order, success means all declared objects and no message, a duplicate is the first one and adds its message, any other failure is a failed round where the objects end |
| `AsfParser.Parser.LoopCompleted` | src/asf/asf.cpp:307-356 | the parser's loop that read every declared object in order, no duplicate and no message, kept the objects and the messages `ObjectLoop` gives |
| `AsfParser.Parser.LoopStopped` | src/asf/asf.cpp:307-315 | the same when the round where the objects end failed, with that round's messages |
| `AsfParser.Parser.LoopRepeated` | src/asf/asf.cpp:307-353 | the same when the last object read repeats a singleton, with its message |
| `AsfParser.Parser.GetStream` | src/asf/asf.cpp:430-436 | NULL outside 1..127, else the slot of that stream number |
| `AsfParser.Parser.SetStream` | src/asf/asf.cpp:439-447 | stores into the slot of a stream number in 1..127 and changes nothing else; other numbers are ignored |
| `AsfHeader.SetSlot` | src/asf/asf.cpp:439-447 | only the slot of a stream number in 1..127 changes, to the object given |
| `AsfHeader.StreamTableLastWins` | src/asf/asf.cpp:317-320 | after registering the header's objects, a slot holds the last stream-properties object declaring that number |
| `AsfHeader.StreamTableUntouched` | src/asf/asf.cpp:317-320 | a slot that no object declares keeps its value |
| `AsfHeader.StreamTableEntries` | src/asf/asf.cpp:317-320 | every changed slot holds an object that declares that stream number |
| `AsfHeader.FirstDuplicateRepeats` | src/asf/asf.cpp:323-353 | a rejection for a duplicate points at a singleton kind (file properties, header extension, marker, script command) already seen, with that kind's message |
| `AsfHeader.NoDuplicateIff` | src/asf/asf.cpp:323-353 | no duplicate is reported exactly when each singleton kind occurs at most once |
| `AsfHeader.HeaderAcceptedIff` | src/asf/asf.cpp:307-373 | the object checks pass exactly when there is one file-properties object, one header extension, at most one marker and script command, and at least one stream |
| `AsfHeader.RejectedAtEnd` | src/asf/asf.cpp:358-373 | a rejection after the last object comes from the required-object checks, and no kind was repeated |
| `AsfHeader.FirstOfKindIsFirst` | src/asf/asf.cpp:323-353 | the object of a kind that the singleton slots keep is the first object of that kind, and there is none exactly when no object has the kind |
| `AsfParser.Parser.ReadHeaderObjects` | src/asf/asf.cpp:307-356 | the objects kept and the messages added are those of `ObjectLoop` from where the source stood (up to the first failed round or the first repeated singleton); slots and stream table match the objects; success means all declared objects were read without a duplicate; a failure without a duplicate is a failed round where the objects end; a duplicate adds its message; with every object read the source stands past all their bytes |
| `AsfParser.Parser.ReadHeaderBody` | src/asf/asf.cpp:307-384 | after the preamble: succeeds exactly when every declared object is read, the header rules accept them and the data object can be read where they end; the objects are those of `ObjectLoop` from where the source stood; each failure path with its messages: a failed object round adds `ObjectLoop`'s, a duplicate or a missing required object adds its message, and with all objects accepted the data object is sought from where they end and adds `DataMessages` of that position; success adds none |
| `AsfParser.Parser.OpenHeader` | src/asf/asf.cpp:281-303 | a short source leaves a zeroed preamble; otherwise the preamble is the bytes read, a rejecting validator's messages are added, and the object table exists exactly when the header validates and its allocation is granted |
| `AsfParser.Parser.RequireObjects` | src/asf/asf.cpp:358-373 | fails, adding the message of the first missing requirement, exactly when the header rules do not hold |
| `AsfParser.Parser.LocateData` | src/asf/asf.cpp:377-384 | succeeds exactly when `ReadData` can from where the source stands (the header's end reachable, the 50-byte block granted and present); then the data offset is the header size and the packet layout is `LayoutOf` the header and file properties; the messages added are `DataMessages` of that position: `Malloc`'s and "Data corruption in data." when the seek succeeds but the block is refused, none otherwise |
| `AsfParser.Parser.ReadData` | src/asf/asf.cpp:240-274 | a second call fails with "ReadData has already been called."; otherwise succeeds exactly when the seek, the allocation and the 50-byte read succeed, and keeps those bytes |
| `AsfParser.Parser.ReadHeader` | src/asf/asf.cpp:277-387 | succeeds exactly when the preamble validates, the object table is granted, every declared object is read, the header rules accept them, and the data object can be read where the object loop left the source; every failure path with its messages (short source, invalid header, refused table, failed object round, duplicate object, missing object, refused data object, each as in `ReadHeaderBody`), and none on success; the stream table and singleton slots match the objects read, which are those of `ObjectLoop` from the end of the 30-byte preamble |
| `AsfParser.Parser.ReadPacket` | src/asf/asf.cpp:189-237 | the outcome, payloads and new position are `ReadPacketAt` at the source's position, with the 64-bit packet offset (see "## Left out") |
| `AsfParser.Parser.GetPacketIndexOfPts` | src/asf/asf.cpp:480-501 | result and position are those of the `IndexOfPts` scan from packet 0 |
| `AsfParser.Parser.GetHeaderObjectIndex` | src/asf/asf.cpp:528-543 | -1 for a negative start or no match; otherwise the first index from `start` on whose GUID matches |
| `AsfFrames.ConcatLength` | src/asf/asf.cpp:1060-1071 | the bytes `Write` copies number the frame's total payload length |
| `AsfFrames.ReadMoreBudget` | src/asf/asf.cpp:1016-1057 | every successful `ReadMore` uses up some of what is left to read; so `Advance` ends |
| `AsfFrames.ResizeF` | src/asf/asf.cpp:728-752 | on success the capacity covers the size, and a new capacity is exactly the size asked for; a failure changes nothing |
| `AsfFrames.WalkResult` | src/asf/asf.cpp:853-924 | a frame walk that ends well leaves the payloads read merged from the frame and the queue in arrival order. The frame is one stream's and one media object's, and the payloads passed over belong to other streams |
| `AsfFrames.WalkKeepsTail` | src/asf/asf.cpp:853-924 | a walk that ends well stops at the queue's first payload of the locked stream, and from there on the queue is the unchanged tail of the payloads read |
| `AsfFrames.InterleavesMultiset` | src/asf/asf.cpp:904-921 | frame and queue together hold exactly the payloads read, so no payload is lost or duplicated |
| `AsfFrames.AttemptNoData` | src/asf/asf.cpp:846-851 | `Advance` fails for lack of data only when the queue was empty and no packet with payloads could be read |
| `AsfFrames.AttemptFramed` | src/asf/asf.cpp:825-947 | a successful pass yields a frame of one media object and stream, merged in order with the queue left behind, with its size the sum of its payloads |
| `AsfFrames.AttemptKeepsTail` | src/asf/asf.cpp:825-947 | after a pass that reaches `end_frame`, no payload queued after the one that ended the frame has joined it: from the first payload of the locked stream on, the queue is the unchanged tail of the payloads queued and read |
| `AsfFrames.AdvanceResult` | src/asf/asf.cpp:825-947 | for `Advance` with the corrected restart: it never returns a script-command frame, a returned frame is one object of one stream, and `Advance (0)` is never empty (the code as written can be, see `AsWrittenSkipsOtherStreams`) |
| `AsfFrames.AdvanceReachesOtherStreams` | src/asf/asf.cpp:899-944 | with a queued payload of another stream, `Advance (0)` returns a non-empty frame unless memory runs out |
| `AsfFrames.AsWrittenSkipsOtherStreams` | src/asf/asf.cpp:899-944 | the code as written, after a script-command frame, returns an empty frame while a video payload waits in the queue |
| `AsfFrames.CommandRoundTrip` | src/asf/asf.cpp:950-1013 | a frame whose bytes encode `type NUL text NUL` gives exactly that type and that text, each with its NUL, and the frame's pts as the callback's arguments |
| `AsfFrames.CommandNone` | src/asf/asf.cpp:980-1009 | there is no callback call exactly when the units hold fewer than two NULs |
| `AsfFrames.CommandShape` | src/asf/asf.cpp:980-1000 | the type and text handed over are consecutive units, each ending at its first NUL |
| `AsfFrames.SeekOutcome` | src/asf/asf.cpp:755-816 | an unseekable source fails with nothing changed; a successful seek sets `first_pts` to the target |
| `AsfFrames.SeekLandsBeforeFound` | src/asf/asf.cpp:755-816 | after a successful seek whose count found a frame past `pts`, the next `Advance` of the stream returns, unless an allocation fails, exactly the frame the counting pass stopped at, which is past `pts` |
| `AsfFrames.CountIsReplay` | src/asf/asf.cpp:772-806 | the frames the first pass counts are the frames the second pass advances over, and the `Advance` after them returns the frame the first pass stopped at |
| `AsfFrames.AdvanceAligned` | src/asf/asf.cpp:825-947 | on a seekable source `Advance` depends on the packet index and queue, not on the byte position |
| `AsfFrames.AdvanceIgnoresFirstPts` | src/asf/asf.cpp:888-892 | `first_pts` has no effect on what `Advance` returns |
| `AsfReader.FrameReader.constructor` | src/asf/asf.cpp:682-699 | empty queue, no list, cursor at packet 0 (-1 when unseekable), `first_pts` the preroll, and the script stream resolved |
| `AsfReader.FrameReader.FindScriptCommandStream` | src/asf/asf.cpp:712-725 | a known index stays; otherwise the index becomes the lowest stream number whose type is the media-command GUID, and stays unchanged exactly when there is none |
| `AsfReader.FrameReader.Pts` | src/asf/asf.cpp:774 | the pts of the frame's first payload, 0 without one |
| `AsfReader.FrameReader.IsKeyFrame` | src/asf/asf.cpp:776 | whether the frame's first payload is a key frame, false without one |
| `AsfReader.FrameReader.StreamId` | src/asf/asf.cpp:940 | the stream of the frame's first payload, 0 without one |
| `AsfFrames.UnseekableReadsNothing` | src/asf/asf.cpp:1016-1035 | on an unseekable source the cursor starts at -1 (`asf.cpp:689`) and `ReadMore` keeps it there; with fewer than 2^32 packets `(uint32_t) -1` is past the count, so `ReadMore` sets `eof` and fails without reading |
| `AsfFrames.UnseekableAdvanceEmpty` | src/asf/asf.cpp:825-947 | hence `Advance` on such a reader with nothing queued yields no frame: end of data when the payload list exists, a refused list otherwise |
| `AsfReader.FrameReader.ReadMore` | src/asf/asf.cpp:1016-1057 | the packet's payloads are appended to the queue in order, and the cursor is `ReadMoreF`'s |
| `AsfReader.FrameReader.ResizeList` | src/asf/asf.cpp:728-752 | the list, capacity and errors become those of `ResizeF` |
| `AsfReader.FrameReader.CopySlots` | src/asf/asf.cpp:742-746 | the first `count` slots are copied and the rest of the new list is untouched |
| `AsfReader.FrameReader.Advance` | src/asf/asf.cpp:825-947 | outcome, reader state and errors are `AdvanceF` of the state before, the corrected restart of Findings row 2 |
| `AsfReader.FrameReader.Seek` | src/asf/asf.cpp:755-816 | outcome, reader state and errors are `SeekF` of the state before |
| `AsfReader.FrameReader.CountFrames` | src/asf/asf.cpp:772-787 | the count and the state are those of `CountPass` from the rewound reader |
| `AsfReader.FrameReader.ReplayFrames` | src/asf/asf.cpp:801-806 | the outcome and state are those of `Replay` over `counter` frames |
| `AsfReader.FrameReader.Write` | src/asf/asf.cpp:1060-1071 | false without a list; otherwise the frame's payload bytes one after the other |
| `AsfReader.FrameReader.ReadScriptCommand` | src/asf/asf.cpp:950-1013 | with a callback set and two NULs in the frame, exactly one command is logged; otherwise the log is unchanged |
| `AsfReader.FrameReader.ScanCommand` | src/asf/asf.cpp:982-1000 | the counting loop yields `CommandIn` of the units |
| `AsfReader.FrameReader.Remove` | src/asf/asf.cpp:1087-1102 | one node leaves the queue and the others keep their order |
| `AsfReader.FrameReader.RemoveAll` | src/asf/asf.cpp:1074-1084 | the queue is empty |
| `Brush.HexPair` | src/brush.cpp:88-91 | every byte written as two hex digits reads back through `strtol` as that byte |
| `Brush.SixDigits` | src/brush.cpp:73-78 | `#rrggbb` gives those components with alpha 255 |
| `Brush.EightDigits` | src/brush.cpp:79-85 | `#aarrggbb` gives those four components |
| `Brush.ThreeDigits` | src/brush.cpp:60-65 | `#rgb` gives each component as its digit's value (the digit is put in the low place), with alpha 255 |
| `Brush.FourDigits` | src/brush.cpp:66-72 | `#argb` gives each component as its digit's value |
| `Brush.OtherLengthIsWhite` | src/brush.cpp:53-92 | a `#` string of any other length gives opaque white |
| `Brush.LookupNamed` | src/brush.cpp:98-106 | a colour is found exactly when some table name matches ignoring ASCII case, and it is that entry's colour |
| `Brush.NamedColor` | src/brush.cpp:98-106 | a name matching a table entry gives that entry's unpacked colour |
| `Brush.TableColors` | src/brush.cpp:35-42 | the table's entries unpack to red, green, blue, black and white |
| `Brush.TableNamesDistinct` | src/brush.cpp:35-42 | no string matches two table entries |
| `Brush.UnknownNameIsNull` | src/brush.cpp:98-107 | a string with no `#` and no matching name gives NULL |
| `Brush.ScRgbIsNull` | src/brush.cpp:94-96 | an `sc#` string gives NULL |
| `Brush.SolidBrushFromStr` | src/brush.cpp:47-108 | a NULL name gives NULL, and any colour returned has components in 0..255 |
| `Brush.ArgbRoundTrip` | src/brush.cpp:79-91 | formatting any colour as `#aarrggbb` and parsing it gives the colour back |
| `Brush.RgbRoundTrip` | src/brush.cpp:73-91 | formatting as `#rrggbb` and parsing gives the colour back, opaque |

## Left out

- Memory ownership is not modelled: `delete`, `g_free` and the transfer of payloads from packet to queue (`steal_payloads`). Allocation is modelled only as the success or failure the parser's `Malloc` decides.
- The routines of `asf.h` are parameters, not code: the GUID registry (`asf_get_guid_type`, `asf_guid_compare`), `asf_guid_tostring`, the header and object validators, and the packet decoder (`FillInAll` of the error-correction data, payload-parsing information and multiple payloads). GUIDs are compared as byte sequences, through the registry's kind.
- `AsfParser.Parser.ReadObject` and `AsfParser.Parser.OpenHeader`: a validator is handed the parser, and a rejection appends the messages it reports. A validator that accepts is assumed to add none, since `asf.h` is not part of this model.
- `AsfPacket.DecodeAt`: a failed decode leaves the position where the packet started. In the source the three `FillInAll` reads (`asf.cpp:213-227`) leave it wherever they failed, which only the decoder in `asf.h` decides.
- `AsfParser.Parser.ReadPacket`: uses the 64-bit packet offset `PacketOffset` (Findings row 1), not the wrapping product as written (`PacketOffsetAsWritten`). The two agree below 4 GiB (`AsWrittenBelow4GiB`). `AsfReader.FrameReader.ReadMore` and everything else that reads packets by index inherit this. The packet decoder is handed the parser (`asf.cpp:213`, `218`, `224`) and can add messages to its chain, such as "Invalid read length: …" (`asf.cpp:610`). The model assumes the decoder adds none, so the unchanged error chain that `ReadPacket`, `ReadMore` and `Advance` promise holds only under that assumption.
- `AsfReader.FrameReader.Advance`: follows the corrected restart (`AdvanceF`, Findings row 2). After a script-command frame it looks again for the stream its caller asked for. The code as written (`AdvanceAsWritten`) keeps the stream it stored into `stream_id` at `asf.cpp:900`. `Seek`, `CountFrames` and `ReplayFrames` inherit this.
- `AsfFrames.AdvanceResult`: is proved for the corrected `Advance`. Its "`Advance (0)` is never empty" does not hold for the code as written, as `AsWrittenSkipsOtherStreams` shows.
- `AsfLayout.PacketIndex`: requires a positive `min_packet_size` for an offset between `packet_offset` and `packet_offset_end`. The source divides by it unguarded (`asf.cpp:476`). With a packet size of 0 that range is the single offset `packet_offset`, and the division by zero there is not modelled. Whether the file-properties validator in `asf.h` excludes a zero packet size is not part of this model.
- `AsfFrames.ReadMoreF`: follows the end test as written. `ReadPacket` reads at the current position for a negative index (`asf.cpp:193`), and the reader of an unseekable source starts at -1 (`asf.cpp:689`), but `ReadMore` compares `(uint32_t) -1` with the packet count first (`asf.cpp:1022`). So the frame reader of an unseekable source with fewer than 2^32 packets never reads a packet (`UnseekableReadsNothing`). Whether the source intends this cannot be told from `asf.cpp` alone, so the model keeps it rather than correcting it.
- `AsfReader.FrameReader.Pts`, `StreamId` and `IsKeyFrame` are defined in `asf.h`, which is not part of this model. They are modelled as fields of the first payload of the list, and 0 or false without one. `Seek` and the script-frame test of `Advance` rely on that.
- `ASFMediaSource` and the embedder's `IMediaSource` are not part of this model. The byte source is a fixed byte sequence with a position; end-relative seeks are not modelled.
- Logging and `printf` output (`ASF_LOG`, the dump routines, `SetStream`'s invalid-index message) are left out, because they change no state.
- `AsfReader.FrameReader.Seek`: the first loop of `Seek` need not end. With payloads of other streams queued, `Advance` can keep succeeding with empty frames. The model bounds that loop by a `fuel` count, and a seek whose fuel runs out fails. Below that bound it is the source's seek.
- The audio-frame branch of `Seek` (`else if (false)`) and the `first_pts` filter of `Advance` (`if (false && …)`) are dead code and are not modelled.
- `ASFFrameReader::Advance ()` is `Advance (0)`, so it is not a separate member.
- `wchar_to_utf8`: the callback receives the type and text as UTF-16 code units, including their NUL terminators, because `type_length` and `text_length` count them.
- `AsfReader.FrameReader.ResizeList`: requires a positive size. The only callers pass 2 and `payload_count + 3`.
- `AsfParser.Parser.ReadObject`: `Malloc` is passed the 64-bit declared size truncated to 32 bits (`asf.cpp:163`), so a size whose low 32 bits are below 24 makes the source copy the 24-byte envelope into a smaller block (`asf.cpp:171`): 2^32 + 10, for example, is granted a 10-byte block. The body read that follows asks for `size - 24` bytes, which for such a size is close to 4 GiB, into that same small block (`asf.cpp:173-174`). The model keeps the whole envelope and reads the body as the source's bytes in that case.
- `AsfParser.Parser.ReadHeader`: requires a parser in its initial state. A second `ReadHeader` on the same parser reallocates the header and the object table (`asf.cpp:281`, `asf.cpp:299`) over the first call's state; that reuse is not modelled.
- `AsfParser.Parser.OpenHeader`: the object-table allocation `(object_count + 1) * 8` is truncated to 32 bits. For counts of 2^29 and more the table is smaller than the loop's writes. The model computes the truncated request but stores the objects in a `seq`, so that overflow is not modelled.
- `AsfParser.Parser.GetHeaderObjectIndex`: requires `start` no greater than the declared object count. The source reads `header_objects [start]` unchecked, and slots past the count are outside the allocated table.
- `AsfParser.Parser.GetPacketIndexOfPts`: models the scan with a packet to read into (see Findings). `IndexOfPtsStops` characterises the scan only for a seekable source. An unseekable source can read only the packet at its current position.
- The counters are not modelled as 32-bit values: `Seek`'s `int counter` and `GetPacketIndexOfPts`'s `int result` are unbounded. `result` stays below the packet count as an `int`. `counter` could pass 2^31 only with more than 2^31 frames.
- Parser accessors that only return a field are not modelled: `GetHeader`, `GetHeader (index)`, `GetFileProperties`, `GetHeaderObject` and `IsValidStream`.
- `Brush.SolidBrushFromStr`: requires a NUL-free string whose `#` form of a recognised length holds only hex digits. How `strtol` treats other characters is not modelled.
- `Brush.SolidBrushFromStr`: the components are the integers 0..255 before the division by 255 into `double`. Floating point is not modelled, and neither is the `SolidColorBrush` it builds.

## Findings

| source | as written | input that shows it | evidently intended | confidence | as-written member | corrected member |
|---|---|---|---|---|---|---|
| src/asf/asf.cpp:456-465 | `packet_index * file_properties->min_packet_size` multiplies an `int` by a `uint32_t`, so the offset wraps modulo 2^32 before it is added to the 64-bit `packet_offset` | 65537 packets of 65536 bytes: packet 65536 gets the offset of packet 0 | the 64-bit product, matching the `int64_t` result and `packet_offset_end` | not executed | `AsfLayout.AsWrittenRoundTripFails` | `AsfLayout.PacketIndexOfOffset` |
| src/asf/asf.cpp:899-944 | `Advance (0)` stores the stream of the first payload into its parameter `stream_id`, and after a script-command frame `goto start` keeps that stream | queue `[stream 2 payload (script stream), stream 1 payload]`, `Advance (0)`: the restart looks only for stream 2, finds nothing more and returns an empty frame | restart with the stream the caller asked for (0: any stream) | not executed | `AsfFrames.AsWrittenSkipsOtherStreams` | `AsfFrames.AdvanceReachesOtherStreams` |
| src/asf/asf.cpp:482-488 | `GetPacketIndexOfPts` passes a NULL `ASFPacket*` to `ReadPacket`, which stores the payloads through it (`asf.cpp:229`), and then calls `GetPts` on it | any source whose packet 0 reads, e.g. two one-byte packets with pts 5 and 9 asked for pts 6 | read each packet into a packet object and scan as the loop says | not executed | `AsfPacket.AsWrittenDereferencesNull` | `AsfPacket.IndexOfPtsStops` |
