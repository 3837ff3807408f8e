# Verification model of embag

embag reads ROS bag files (Bag Format 2.0): it builds an index from the records of a file, iterates over the messages of
several bags in time order, and decodes each message into a flat arena that is driven by the message definition in the bag.
This project models that path in Dafny, from the bytes of the files to the decoded messages, and proves what each part
promises and that the parts fit together.

## What is modelled

| part | files |
|---|---|
| bytes, little-endian numbers, decimal numbers, timestamps | `Bytes.dfy`, `Numbers.dfy`, `RosTime.dfy` |
| records, header fields, the map-based and the first-letter header reader | `Framing.dfy` |
| message definitions and their resolution into a closed graph, names and sizes of primitive types | `MsgTypes.dfy`, `Primitives.dfy` |
| message values, their serialization, the arena layout | `Wire.dfy`, `RosValue.dfy` |
| the decoder and what its arena means | `Lengths.dfy`, `MessageParser.dfy`, `Decoding.dfy`, `Access.dfy`, `RosMessage.dfy` |
| the decoder on arbitrary bytes, printing, one message written out | `AnyBuffer.dfy`, `Printing.dfy`, `MessageExample.dfy` |
| the bag index, connection table, topics, chunks, counts | `BagTypes.dfy`, `BagIndex.dfy`, `Bag.dfy` |
| the scan of one bag, the merge of several, loops that may throw, the iterator | `Scan.dfy`, `MapScan.dfy`, `Merge.dfy`, `Runs.dfy`, `View.dfy`, `Restart.dfy` |
| `getMessages`, chunk selection, whole queries | `Selection.dfy`, `GetMessages.dfy` |
| files in, decoded messages out | `EndToEnd.dfy`, `TopicDefinition.dfy` |
| bag files as the format has them, written and read back | `FieldNames.dfy`, `BagWriter.dfy`, `WrittenBag.dfy`, `OneMessage.dfy` |
| connections grouped over bags, schemas | `ConnectionGroups.dfy`, `Schema.dfy` |

The imperative code is modelled by classes and loops with the source's own fields (`MessageParser`, `RosMessage`, `Bag`,
`BagWrapper`, `Iterator`, `View`); each of them is proved against a specification function, and the properties are lemmas
about those functions.  Ghost parameters name what lies in the bytes (a value, a list of records, a file layout); the code
itself sees only bytes and definitions.

Main results:

* **Decoder.**  For every definition, every value that the definition admits, every buffer and every offset at which the
  serialization of the value lies, the parser consumes exactly those bytes and builds an arena that reads back as the value
  (`Parser.MessageParser.Parse`, `Decoding.MessageReadsBack`).  The arena is a tree (`Decoding.ArenaIsATree`), every access
  path behaves as in the value (`Access.MessagePath`), and the bytes determine the value (`Messages.MessageIsUnique`).
  Nothing need be known about the bytes: for every definition without cycles, every buffer and every offset the parser ends;
  it throws exactly when a length that it needs starts outside the buffer, and otherwise its arena is a tree
  (`AnyBuffer.ParseBuffer`).  On such a tree `toString` ends too, and on a message it prints the message
  (`Printing.MessagePrints`).
* **Iterator.**  Whatever well-framed records the chunks hold, in whatever order and with whatever further fields, a loop over
  any number of bags delivers a merge of what their scans bring: always a head with minimal timestamp, each bag in its own order
  (`Views.Iterator.ForEach`).  When it ends, every message has been
  delivered once, and in time order iff every bag is in time order (`Queries.EndedRun`).  When it throws, it has delivered a
  run of the streams up to their throws, and the exception is that of the stream delivered from last (`Queries.ThrownRun`).
  What a scan brings is the beginning of what the bag holds (`Scan.PendingPrefix`), and all of it iff the records are ones the
  scanner accepts (`Scan.PendingMeaning`).  The scan reads headers by the first letters of their fields; it brings what the
  map-based headers mean, whatever the values of the fields are, iff in every message the last field of each letter is the one
  that is meant, and in no other record an operation code is hidden behind another field (`MapScan.ScanIsExact`).
* **Pruning.**  Reading only the chunks that the index gives for some topics brings the same messages as reading all chunks,
  iff every chunk with such a message is indexed for one of the topics' connections (`Selecting.SelectionLosesNothing`).  For
  bags in time order the possible deliveries of a topic query are exactly the filtered possible deliveries of all messages
  (`Queries.TopicQueryIsFilteredQuery`); `Merge.FilterNeedsSorted` shows bags out of order on which this fails.
* **Index.**  The three loops of `readRecords` compute from bytes what a fold over the records says
  (`Bags.Bag.ReadRecords`).  That index is sound (`EndToEnd.ReadIndexIsGood`), and it is complete exactly when the INDEX_DATA
  records are (`EndToEnd.ReadIndexIsComplete`).
* **Together.**  From the bytes of files to decoded messages: opening the files, querying topics, looping, and decoding when
  the loop is over gives the messages of the merge, each reading back as the value that its bytes in the file stand for
  (`EndToEnd.DecodeFiles`).
* **Written and read.**  `BagWriter` says, byte by byte and without the reader in sight, what a bag file with given connections,
  messages and index is.  The reader takes every such file (`BagWriter.WrittenIsDescribed`), and a topic query over any number
  of them delivers exactly the messages that were written on the topics, as a merge by timestamp of what was written in each
  file, each with the topic and checksum of its connection, its time and its bytes (`WrittenBags.WriteAndRead`).

Properties that turned out not to hold without a condition are stated with the condition under which they do, beside a concrete
input that breaks them: an index beyond a primitive array is not noticed (`Access.MessagePath`, `Access.OverrunIsReachable`); a
message without data at the end of a chunk stops the iteration with an exception (`Scan.PendingMeaning`,
`Scan.EmptyLastMessageThrows`); a message with a `topic` field behind its time is delivered with the topic for its time
(`Framing.FastHeaderIsExact`, `MapScan.ScanIsExact`, `MapScan.TopicIsDeliveredAsTime`); nanoseconds order only normal times
(`RosTimes.NsecOrderIsExact`, `RosTimes.NsecOrderNeedsNormal`); chunk message counts wrap at 2^32 (`Bags.CountsAreConserved`,
`BagIndex.ChunkCountWraps`); a topic leads to connections of another topic when a connection id is carried under two topics
(`BagIndex.TopicsLeadToEntries`, `BagIndex.TopicLeadsElsewhere`); `begin()` after a partial loop does not start over
(`Restarts.RestartIsWhole`, `Restarts.LeaveAfterOne`); and a message may be decoded with the definition of another connection
of its topic (`TopicDefinitions.DefinitionIsOwn`, `TopicDefinitions.DefinitionOfAnother`).

## Model

| member | source | states |
|---|---|---|
| Bytes.U32RoundTrip | lib/message_parser.cc:80-81 | a little-endian 32-bit number is read back wherever it sits in a buffer |
| Bytes.U64RoundTrip | lib/embag.cc:164-176 | the same for the 64-bit positions that the file header and CHUNK_INFO records hold |
| Bytes.LittleEndian | lib/embag.cc:121-121 | the lowest byte of a number comes first |
| Numbers.DecimalRoundTrip | lib/ros_value.cc:193-193 | an index is written in digits that read back as it, without a leading zero |
| RosTimes.QueueOrder | lib/view.h:99-111 | the queue comparator is the reverse of `operator<` on times, a strict total order, and its negation is `operator<=` and transitive |
| RosTimes.NsecOrder | lib/ros_value.h:63-92 | `to_nsec` fits a signed 64-bit integer for all fields; on normal times it is injective and orders as the operators do |
| RosTimes.NsecOrderIsExact | lib/ros_value.h:63-92 | a time is ordered rightly by nanoseconds against every normal time iff it is normal itself or in the last second |
| RosTimes.NsecOrderNeedsNormal | lib/ros_value.h:63-92 | a pair of times where the operators and the nanoseconds disagree |
| RosTimes.NsecOfSeconds | lib/ros_value.h:63-65 | one second more is 1000000000 nanoseconds more, and one nanosecond more is one more |
| RosTimes.TimeRoundTrip | lib/view.cc:66-67 | eight bytes of a timestamp are read back wherever they sit |
| MsgTypes.ScopeOf | lib/ros_msg_types.h:145-151 | the part of a name before its first slash, without a slash in it; empty exactly when the name has no slash or starts with it |
| MsgTypes.IndexesPointAtFirstField | lib/ros_msg_types.h:135-143 | a name is indexed iff a field has it, and the index is the position among the fields of the first such field |
| MsgTypes.NewBaseDef | lib/ros_msg_types.h:122-152 | the one-pass constructor gives the members, the scope and the field indexes that the definition means |
| MsgTypes.LookupMeaning | lib/ros_msg_types.h:70-78 | the key that is scope, slash and type name is found if it is there, else the type name if that is there, else nothing |
| MsgTypes.SetTypeDefinition | lib/ros_msg_types.h:65-83 | the field refers to the key that is scope, slash and type name if it is there, else to the type name if that is there, else the call fails |
| MsgTypes.EmbeddedMapMeaning | lib/ros_msg_types.h:219-221 | the map has exactly the names of the embedded definitions, each with the first definition of that name |
| MsgTypes.InitializeFieldTypeDefinitions | lib/ros_msg_types.h:179-188 | succeeds iff no field dangles, then every object field is resolved and nothing else changes; an error names a dangling field |
| MsgTypes.MsgDef.constructor | lib/ros_msg_types.h:215-221 | the root and the map of embedded definitions in which the first of each name is kept |
| MsgTypes.MsgDef.Resolve | lib/ros_msg_types.h:223-226 | for any order of the map: succeeds iff nothing dangles anywhere, and the graph is the one with no order in its definition |
| MsgTypes.ResolvableMeaning | lib/ros_msg_types.h:215-227 | resolution can succeed iff every field of the root and of the first definition of each name has a primitive type, or an embedded definition under its scoped or its plain name |
| MsgTypes.BuildMsgDef | lib/message_def_parser.cc:124-126 | construction succeeds under exactly this condition; the resulting graph is closed |
| MsgTypes.ResolvedRefersAsMeant | lib/ros_msg_types.h:65-83 | a resolved field refers to the embedded definition with its scoped name if there is one, else to the one with its plain name |
| MsgTypes.FieldsOfResolved | lib/ros_msg_types.h:179-188 | resolution keeps the fields, their order and their indexes |
| MsgTypes.ResolutionIsClosed | lib/ros_msg_types.h:215-227 | every object field of the root and of every definition refers to an existing definition |
| Primitives.NamesFindTypes | lib/embag.cc:9-29 | every primitive type is found under its name; byte and char are 8-bit integers |
| Primitives.NamedSizes | lib/ros_value.cc:208-235 | a value of a primitive type has as many bits as the name of the type says; bool, byte and char have one byte, time and duration those of a timestamp |
| RosValues.GetValues | lib/ros_value.cc:111-124 | the pointers that `at` gives at every index below the size; fails only if one of these accesses does |
| RosValues.GetObjects | lib/ros_value.cc:98-109 | for any order of the index map: the names of the object with what `get` gives for each; fails only if one of these accesses does |
| Lengths.WholeIsInside | lib/message_parser.cc:77-130 | a value that lies inside the buffer as a whole has all its lengths there, so that its parse does not throw |
| Wire.SerAllAt | lib/message_parser.cc:35-57 | where the bytes of the k-th sibling lie inside the bytes of all siblings |
| Wire.RowAt | lib/message_parser.cc:28-38 | the cell of the k-th sibling: children after all siblings and the descendants of earlier ones, bytes after those of earlier ones |
| Wire.BelowAt | lib/message_parser.cc:39-55 | the descendants of the k-th sibling lie in one stretch, in order |
| Parser.ProgressStep | lib/message_parser.cc:35-57 | filling in one unset sibling in place and appending its descendants takes the arena from k finished siblings to k + 1 |
| Parser.MessageParser.EmplaceField | lib/message_parser.cc:60-75 | appends exactly the unset cell that the field calls for and moves the arena cursor |
| Parser.MessageParser.EmplaceMembers | lib/message_parser.cc:28-33 | one unset cell per field, in order, none for constants |
| Parser.MessageParser.ReadLength | lib/message_parser.cc:80-80 | the length at the cursor; a throw iff its first byte is outside the buffer, while the other three may lie behind it |
| Parser.MessageParser.InitObject | lib/message_parser.cc:23-58 | throws iff a length starts outside the buffer; otherwise the object's cell gets its range and the arena grows by the layout of its fields; the byte cursor moves by the serialized length; the arena cursor is the arena size again |
| Parser.MessageParser.InitField | lib/message_parser.cc:35-57 | one round of the second loop: the object gains a child in its range, which is filled in with its descendants |
| Parser.MessageParser.InitMember | lib/message_parser.cc:39-55 | dispatch on the unset cell throws iff a length of the value starts outside the buffer, and otherwise fills it in as the value's cell with its descendants behind |
| Parser.MessageParser.InitArray | lib/message_parser.cc:77-118 | the same for arrays, although the arena cursor runs ahead of the arena inside |
| Parser.MessageParser.EmplaceElements | lib/message_parser.cc:95-107 | one unset cell per element while the arena cursor stays |
| Parser.MessageParser.InitElement | lib/message_parser.cc:100-111 | one element: a throw iff one of its lengths starts outside the buffer, otherwise its cell with its descendants |
| Parser.MessageParser.InitElements | lib/message_parser.cc:100-111 | the unset elements become the layout of their values, unless a length of theirs starts outside the buffer |
| Parser.MessageParser.ReadArrayLength | lib/message_parser.cc:78-84 | the length in front of a dynamic array or in the definition of a fixed one, and the bytes used for it; a throw iff a length in front starts outside the buffer |
| Parser.MessageParser.InitPrimitive | lib/message_parser.cc:120-130 | a lazy offset; the cursor moves over exactly the primitive's bytes; a throw iff the length of a string starts outside the buffer |
| Parser.MessageParser.Parse | lib/message_parser.cc:12-21 | for any value whose serialization starts with the bytes of the buffer: a throw iff one of its lengths starts outside the buffer; otherwise the arena of the message at the starting offset, with the byte cursor at offset plus serialized length |
| Decoding.CellReadsBack | lib/ros_value.cc:63-96 | a finished cell with its descendants in place is read through the accessors as the value it was made from |
| Decoding.MessageReadsBack | lib/message_parser.cc:12-130 | decoder round trip: wherever the serialization lies, the arena built for that place reads back as the message |
| Decoding.ValueOwners | lib/message_parser.cc:77-118 | a cell and its descendants claim exactly the indexes of the descendants as children, once each |
| Decoding.ArenaIsATree | lib/message_parser.cc:23-58 | every cell but the root has exactly one parent, which lies before it; the root has none; all cells are initialised; no range leaves the arena |
| AnyBuffer.ReadIsWritten | lib/message_parser.cc:80-80 | the number read from any four bytes is written as these bytes |
| AnyBuffer.ValueStands | lib/message_parser.cc:60-130 | for a definition without cycles, any bytes serialize a value that the definition admits, if zeros follow them |
| AnyBuffer.ParseBuffer | lib/message_parser.cc:12-130 | on any buffer at any offset, for a definition without cycles: the parser ends; it throws iff a length of what the bytes stand for starts outside the buffer; otherwise the arena is a tree, and that of the message the bytes stand for |
| MessageExample.BytesOfExample | lib/message_parser.cc:12-130 | the bytes of a message with a number, a dynamic array, a constant, a string and a fixed array of objects |
| MessageExample.ExampleReadsBack | lib/message_parser.cc:12-130 | wherever these bytes lie, the arena reads back as the value |
| MessageExample.TextOfExample | lib/ros_value.cc:126-202 | the text of this message |
| Printing.ToString | lib/ros_value.cc:126-202 | the recursive reader with its streams ends on every arena whose children lie after their parents, and returns what the recursion without streams gives, errors included |
| Printing.CellPrints | lib/ros_value.cc:126-202 | a finished cell with its descendants in place prints as its value |
| Printing.MessagePrints | lib/ros_value.cc:126-202 | a decoded message prints as the message, wherever its bytes lie and in whatever order names are listed |
| Access.MessagePath | lib/ros_value.cc:63-96 | following any path of names and indexes fails exactly when the message has nothing there, except for an index beyond a primitive array; what is found reads back as the selected part |
| Access.OverrunIsReachable | lib/ros_value.cc:87-92 | a message and a path on which the unchecked access happens |
| Access.ContainersAnswer | lib/ros_value.cc:98-124 | a decoded container has the size of its value, answers every index below it and every name of its definition |
| Access.ElementTypeOfArray | lib/ros_value.cc:32-40 | the element type of a decoded array is that of its field, except that an empty array of objects or strings throws |
| Access.ArrayBufferIsElements | lib/ros_value.cc:42-56 | the raw buffer of a primitive array is the concatenation of its elements and its size theirs; taking it throws exactly for an empty array at the very end of the buffer |
| Access.DescShifts | lib/message_parser.cc:77-130 | moving the bytes of a value moves the byte offsets of its cells and nothing else |
| Access.DecodingIsLocal | lib/message_parser.cc:77-130 | two buffers with the same message bytes at different offsets give arenas of one shape with shifted byte offsets, and the same value |
| Access.ValueIsUnique | lib/message_parser.cc:77-130 | no two values of a field can start at the same place of a buffer |
| Messages.RosMessage.Data | lib/ros_message.h:46-52 | the decoded message reads back as the value in the slice, and a second call changes nothing |
| Messages.RosMessage.ToString | lib/ros_message.h:74-80 | the text of the message in the slice |
| Messages.RosMessage.Hydrate | lib/ros_message.h:87-93 | the cache is what a fresh decode gives |
| Messages.MessageIsUnique | lib/ros_message.h:87-93 | the bytes of a message determine the message |
| Framing.ReadFields | lib/embag.cc:111-137 | the last value of each name; an error iff some field has no separator |
| Framing.LastWinsMeaning | lib/embag.cc:131-131 | a name is present iff some field has it, with the value of the last such field |
| Framing.FieldsRoundTrip | lib/embag.cc:111-137 | parsing the encoding of any list of fields gives the last value of each name |
| Framing.ReadHeader | lib/view.cc:44-74 | the first-letter reader computes what a glance at each field says: the operation code always, the rest when the values have their full length |
| Framing.FastHeaderAgrees | lib/view.cc:61-68 | the glances agree with the map-based header, field by field, when the last field of a letter is the one that is meant |
| Framing.FastHeaderIsExact | lib/view.cc:61-68 | for given names and value lengths the two readers agree whatever the values are, iff the last field starting with o is op, with c is conn and with t is time |
| Framing.TopicIsTakenForTime | lib/view.cc:66-67 | in every header of op, conn, time and then topic fields the fast reader takes the topic for the time |
| Framing.FastHeaderMistakesTopic | lib/view.cc:66-67 | a message header on which the two readers give different times |
| Framing.RecordInBytes | lib/embag.cc:91-109 | the bytes of a record with one field and one byte of data |
| Framing.ReadRecord | lib/embag.cc:91-109 | where header and data of a record lie and where the next record starts |
| Framing.ReadRecordHeader | lib/embag.cc:139-145 | the header map of a record with well-formed fields |
| Merge.RunExtends | lib/view.cc:142-149 | one more delivery of a minimal head extends a run |
| Merge.RunInterleaves | lib/view.cc:142-149 | from each stream exactly the taken prefix is delivered, in its order, each message once |
| Merge.OutputIsPicked | lib/view.cc:142-149 | every delivered message is one of the stream it was taken from |
| Merge.FullRunDeliversAll | lib/view.cc:15-23 | a run to the end delivers all of every stream |
| Merge.SortedRun | lib/view.h:99-113 | over sorted streams the output is sorted and nothing left over is earlier than anything delivered |
| Merge.FullRunSorted | lib/view.h:99-113 | a run to the end delivers in time order iff every stream is in time order |
| Merge.FilteredRunIsRun | lib/view.cc:174-197 | filtering any merge of sorted streams is a merge of the filtered streams, with the same messages |
| Merge.FilteredRunLifts | lib/view.cc:174-197 | every complete merge of the filtered sorted streams is what filtering leaves of some complete merge of the unfiltered ones |
| Merge.FilteredRunsAreRuns | lib/view.cc:174-197 | for sorted streams the complete merges of the filtered streams are exactly the filtered complete merges |
| Merge.FilterNeedsSorted | lib/view.cc:174-197 | unsorted streams and a complete merge whose filtered form is no merge of the filtered streams |
| Runs.ReachesIsRun | lib/view.cc:15-23 | what a loop delivers before a throw, or before the end, is a run of the streams up to their throws |
| Runs.ThrowsAreLeft | lib/view.cc:129-132 | a throw is never passed over |
| Runs.FinishedIsFull | lib/view.cc:142-149 | a loop that leaves nothing has met no throw and delivered all of every stream |
| Runs.LastPickThrows | lib/view.cc:142-149 | what throws is the stream delivered from last, or a stream at its start |
| BagIndex.TableHoldsEntries | lib/embag.cc:210-212 | a table entry holds the last named CONNECTION record of its id; an id without one has an empty entry |
| BagIndex.TopicsListIds | lib/embag.cc:213-213 | a topic maps to the connection ids of its records in file order |
| BagIndex.FirstIdIsFirst | lib/embag.cc:213-213 | the first of these ids is that of the first record on the topic |
| BagIndex.IdsAreDistinct | lib/embag.cc:213-213 | a topic lists no id twice iff no two of its records share one |
| BagIndex.CarriedIsLedTo | lib/embag.cc:210-213 | every table entry is led to by the topic it carries |
| BagIndex.TopicsLeadToEntries | lib/embag.cc:210-213 | topics lead to exactly the table entries that carry them, iff no id is carried under two different topics |
| BagIndex.TopicLeadsElsewhere | lib/embag.cc:210-213 | two CONNECTION records with one id under two topics, for which the first topic leads to the entry of the second |
| BagIndex.ChunksOfConnection | lib/embag.cc:284-292 | a connection's blocks are, in CHUNK_INFO order and once per INDEX_DATA record, the chunks those records follow; its count is their sum; nothing else changes |
| BagIndex.BlocksForMeaning | lib/embag.cc:284-291 | a chunk is referenced iff an INDEX_DATA record behind it names the connection, and every reference is inside the chunk table |
| BagIndex.BlocksAreInOrder | lib/embag.cc:284-291 | the references of a connection follow the order of the chunks |
| BagIndex.ChunkCountWraps | lib/embag.cc:290-292 | two INDEX_DATA records of 2^31 messages each, for which the count of the chunk is 0 and that of the connection 2^32 |
| Bags.ContentOfChunk | lib/ros_bag_types.h:86-94 | an uncompressed chunk holds the bytes of its record, as many as its size says; any other holds what its compression makes of them |
| Bags.CountsAreConserved | lib/embag.cc:270-295 | the counts in the connection table sum to the counts of all INDEX_DATA records, and so do the counts in the chunk table iff no chunk reaches 2^32 |
| Bags.Bag.ReadRecords | lib/embag.cc:147-300 | from the bytes of a complete file: connection table, topic map and chunk tables as the folds over its records say; an error iff some compression is unsupported |
| Bags.Bag.ReadConnections | lib/embag.cc:176-214 | the first loop: table and topics of the records read, and the position after them |
| Bags.Bag.ReadConnectionData | lib/embag.cc:190-208 | the connection data with its optional fields and its scope |
| Bags.Bag.ReadChunkInfos | lib/embag.cc:216-244 | the second loop: one entry per CHUNK_INFO record |
| Bags.Bag.ReadChunks | lib/embag.cc:246-297 | the third loop: chunks, infos and back-pointers, although slot i is referenced before chunk i is pushed |
| Bags.Bag.ReadChunk | lib/embag.cc:251-296 | one chunk: its offset, counts, compression and what it unpacks to |
| Bags.Bag.ReadIndexes | lib/embag.cc:269-293 | the INDEX_DATA records of a chunk are added to the table and to a count that wraps at 2^32 |
| Bags.Bag.MsgDefForTopic | lib/embag.h:53-61 | the definition of the topic's first connection; fails iff it has none; the memo never changes an answer |
| Bags.Bag.ParseMsgDef | lib/message_def_parser.cc:114-132 | a fresh definition, resolved; fails iff the text does not parse or does not resolve |
| Bags.Bag.TopicDefinitionIsOwn | lib/embag.cc:308-314 | messages of a connection are decoded with its own definition when it has the definition text and type of its topic's first connection |
| Bags.SameDefinitionIffSameText | lib/embag.cc:313-314 | two connections have the same definition under every grammar iff they have the same text and type |
| Scan.PendingMeaning | lib/view.cc:81-140 | from any point inside a chunk: nothing is thrown iff the rest is clean, and then exactly the selected messages come, in order, across chunks, connections and skipped records |
| Scan.NextChunkMeaning | lib/view.cc:82-88 | the same from the start of a chunk |
| Scan.PendingPrefix | lib/view.cc:81-140 | for any records: what the scan brings before it throws is the beginning of what the flat filter gives |
| Scan.MessageIsDelivered | lib/view.cc:110-124 | a record with operation code 2, a connection, a time and data is delivered with these if its connection is selected, and passed over otherwise |
| Scan.OtherCodes | lib/view.cc:125-132 | a record with operation code 7 is passed over, whatever else it has; one with another code than 2 and 7, or with none, throws |
| Scan.EmptyLastMessageThrows | lib/view.cc:105-106 | the same record without data at the end of a chunk throws |
| Scan.PendingPassed | lib/view.cc:90-134 | a scan over records that do not throw brings their selected messages, and then what comes after them |
| MapScan.RecordIsExact | lib/view.cc:61-68 | whatever the values of its fields are, the scan sees in a record what the map-based reader means, iff in a message the last field of each letter is the one that is meant, and in another record no operation code is hidden |
| MapScan.ScanIsExact | lib/view.cc:81-140 | over chunks that can be scanned, whatever the values of the fields, the selected connections and the place where the scan stands, it brings the selected messages under map-based headers, iff every record is such |
| MapScan.ClearFlatIsMeant | lib/view.cc:81-140 | over such records the flat filter of the scan is the one over map-based headers, whether they can be scanned to the end or not |
| MapScan.TopicIsDeliveredAsTime | lib/view.cc:66-67 | a message that is delivered with its topic for its time |
| Scan.PruningIsExact | lib/view.cc:174-197 | skipping chunks keeps the filtered sequence iff none of them holds a selected message |
| Views.ReadChunkRecord | lib/view.cc:91-106 | one record read from the buffer; the element accesses fail iff the last record of the chunk has no data |
| Views.NextRecord | lib/view.cc:90-110 | one step of the scan consumes one record and yields the header that readHeader gives; when it throws, a throw was all that was to come |
| Views.ScanRecord | lib/view.cc:90-134 | skip, publish or throw, each exactly as the remaining events say |
| Views.ScanChunk | lib/view.cc:90-134 | the inner loop: skipped records change nothing of what is to come, until a message is published, a throw is due, or the chunk is finished |
| Views.OpenChunk | lib/view.cc:83-88 | a fresh buffer with the chunk's content and no change of what is to come; fails exactly on an empty chunk |
| Views.CloseChunk | lib/view.cc:136-138 | the next chunk is up, no buffer is open, and what is to come is unchanged |
| Views.Iterator.Push | lib/view.cc:123-123 | the wrapper joins the queue once and the top is still earliest, whatever happens among equal times |
| Views.Iterator.Pop | lib/view.cc:143-144 | the top leaves and the new top is earliest |
| Views.Iterator.ReadMessage | lib/view.cc:81-140 | publishes the next event of the wrapper and queues it, ends with nothing queued, or throws, as the events say |
| Views.RewoundIsFresh | lib/view.cc:19-19 | without an open chunk begin() starts from the first chunk |
| Restarts.WholeIsReadAndAhead | lib/view.cc:81-140 | in every state with an open chunk, what a wrapper brings in all is what it has gone over and what is ahead of it |
| Restarts.RestartIsWhole | lib/view.cc:19-19 | with an open chunk begin() brings everything again iff the unread rest of that chunk has just the selected messages of the first chunk, or, when that rest throws, iff no selected message has been gone over |
| Restarts.RestartLosesDelivered | lib/view.cc:19-21 | so never when a message of the unfinished first chunk has been delivered |
| Restarts.LeaveAfterOne | lib/view.cc:19-21 | a wrapper with one chunk of two messages, left after the first: begin() brings only the second |
| Views.Iterator.Begin | lib/view.cc:15-23 | for any state of the wrappers: every wrapper has the first message that it now brings queued, or is at its end; fails iff some first event is a throw |
| Views.Iterator.AtEndIffNothingLeft | lib/view.h:49-57 | the size comparison with the end iterator holds exactly when no stream has an undelivered message |
| Views.Iterator.TopIsTakeable | lib/view.h:98-113 | the top of the queue publishes the head of its stream, and no other head is earlier |
| Views.Iterator.Advance | lib/view.cc:142-149 | the queue invariant is kept with one event taken from the top's stream; fails iff the next event there is a throw |
| Views.Iterator.Deref | lib/view.cc:25-41 | the message on top with topic, checksum, time, bytes and definition of its connection; fails iff the topic has no definition |
| Views.Iterator.Round | lib/view.cc:25-41 | one round of the loop takes a minimal head and delivers it as a new message; operator* fails iff the topic has no definition, operator++ iff the next event is a throw |
| Views.Iterator.RoundKeeping | lib/view.cc:117-121 | everything delivered before a round is the same after it, and the message of the round is new |
| Views.Iterator.ForEach | lib/view.cc:7-41 | for any streams, throws included: the loop delivers new messages, a merge of the streams up to their throws, each still intact at the end; it ends with nothing left, at a throw, or at a topic without a definition; after a complete loop the next one starts from the first chunks |
| Selecting.EmplaceMeaning | lib/view.h:76-83 | the chunk set stays ordered by offset and gains a chunk unless one with its offset is there |
| Selecting.OrderedSetsEqual | lib/view.h:76-83 | the order of the chunk set is determined by its members |
| Selecting.SelectIds | lib/view.cc:181-192 | the selected connections are exactly those of the named topics |
| Selecting.SelectCovers | lib/view.cc:186-189 | every chunk that a selected connection refers to is selected, when chunks have different offsets |
| Selecting.SelectOnly | lib/view.cc:186-189 | no chunk is selected that no selected connection refers to |
| Selecting.SelectedIffIndexed | lib/view.cc:186-189 | a chunk is selected iff an INDEX_DATA record for a selected connection refers to it |
| Selecting.SelectionLosesNothing | lib/view.cc:174-197 | the selected chunks bring the same messages in the same order as all chunks, iff every chunk with a selected message is indexed for some selected connection |
| Queries.EmplaceBlocks | lib/view.cc:187-189 | the loop over the blocks of a connection |
| Queries.EmplaceConnections | lib/view.cc:186-192 | the loop over the connections of a topic |
| Queries.SelectBag | lib/view.cc:177-194 | a new wrapper with the selection of its bag for the named topics |
| Queries.SelectAll | lib/view.cc:154-165 | a new wrapper with all chunks and all connection numbers of its bag |
| Queries.TopicEventsMeaning | lib/view.cc:174-197 | the scan of the selected chunks brings the beginning of the bag's messages on the topics, all chunks considered, and all of them iff it does not throw |
| Queries.WholeEventsMeaning | lib/view.cc:151-168 | the same for all messages |
| Queries.View.AddBag | lib/view.cc:243-246 | the bag joins the view |
| Queries.View.GetMessages | lib/view.cc:174-197 | one new wrapper per different bag with its selection, also when a bag was added twice |
| Queries.View.GetAllMessages | lib/view.cc:151-168 | one new wrapper per different bag with all chunks and connections, also when a bag was added twice |
| Queries.Iterate | lib/view.cc:7-13 | the loop over a prepared view delivers new messages, a merge of what the wrappers bring, and says how it stopped |
| Queries.Query | lib/view.cc:174-197 | a topic query over any bags delivers a merge of what the scans of the selected chunks bring, whatever records these hold and whatever bytes the other chunks hold |
| Queries.QueryAll | lib/view.cc:151-168 | a query without topics delivers a merge of what the scans of all chunks bring, whatever records they hold |
| Queries.EndedRun | lib/view.cc:142-149 | when the loop has ended, nothing threw and every message has been delivered once in the order of its bag; the times of delivery do not decrease iff those of each bag do not |
| Queries.ThrownRun | lib/view.cc:129-132 | when a scan threw, the delivered messages are a run of the streams up to their throws, and the throw was next in the stream delivered from last |
| Queries.TopicQueryIsFilteredQuery | lib/view.cc:151-197 | with sorted bags the possible deliveries of the topic query are exactly the filtered possible deliveries of all messages |
| Queries.FilteredQueryIsTopicQuery | lib/view.cc:151-197 | and they are the same messages |
| EndToEnd.ReadIndexIsGood | lib/embag.cc:250-297 | what `readRecords` builds refers only to existing chunks and connections, each of which knows its number |
| EndToEnd.ReadIndexIsComplete | lib/embag.cc:284-291 | it is complete for some connections iff the INDEX_DATA records of the file are |
| EndToEnd.LoadedIsIndexable | lib/embag.cc:147-300 | a bag read from a file has the index and the selection of the file's records |
| EndToEnd.FileEventsMeaning | lib/view.cc:174-197 | the scan for some topics brings the beginning of what the file's records hold on them, and all of it iff it does not throw |
| EndToEnd.OpenBag | lib/embag.cc:147-300 | a new bag with the tables of its file; fails iff a compression is unsupported |
| EndToEnd.OpenView | lib/view.cc:237-246 | a view with one bag per file |
| EndToEnd.QueryFiles | lib/view.cc:174-197 | from the bytes of files: new messages, a merge by timestamp of what the scans of the files bring on the topics |
| EndToEnd.DeliveredEncodes | lib/view.cc:32-38 | a delivered message whose bytes serialize a value holds that value under its topic's definition |
| EndToEnd.AllEncode | lib/view.cc:32-38 | everything that was delivered holds the value its bytes in the file stand for, and no topic was without a definition |
| TopicDefinitions.DefinitionIsOwn | lib/embag.cc:308-314 | messages of a connection are decoded with its own definition under every grammar iff it has the definition text and type of its topic's first connection |
| TopicDefinitions.DefinitionOfAnother | lib/embag.cc:308-314 | two connections of one topic with different texts, for which they are not |
| EndToEnd.DecodeAll | lib/ros_message.h:46-52 | decoding a list of such messages gives back every value |
| EndToEnd.DecodeFiles | lib/view.cc:174-197 | from the bytes of files to decoded messages: the merge of what the scans bring on the topics, each message reading back as the value its bytes stand for |
| BagWriter.IndexRecordMeaning | lib/embag.cc:276-283 | an INDEX_DATA record as the format has it is read as its connection and count |
| BagWriter.InfoRecordMeaning | lib/embag.cc:220-243 | a CHUNK_INFO record as the format has it is read as its position, times and number of INDEX_DATA records |
| BagWriter.BagHeaderMeaning | lib/embag.cc:151-170 | a bag header as the format has it is read as its counts and the position of the index |
| BagWriter.ConnectionMeaning | lib/embag.cc:177-213 | a CONNECTION record as the format has it is read as its id, topic, type, scope, checksum, definition, caller and latching |
| BagWriter.CompressionIsTaken | lib/embag.cc:262-267 | a CHUNK record is taken iff its compression is lz4, bz2 or none |
| BagWriter.ChunkMeaning | lib/embag.cc:251-296 | an uncompressed CHUNK record as the format has it is read as a chunk with the bytes of its messages, which ends where its INDEX_DATA records start |
| BagWriter.WrittenIsDescribed | lib/embag.cc:147-300 | every file as the format has it is a complete file in the sense of the reader's results |
| WrittenBags.BytesDecideMessages | lib/view.cc:90-110 | the bytes of a list of message records determine the messages |
| WrittenBags.WrittenComesBack | lib/view.cc:174-197 | a scan of a written file for some topics brings the messages that were written on them, in the order of writing |
| WrittenBags.WriteAndRead | lib/view.cc:174-197 | a topic query over written files delivers the messages written on the topics, as a merge by timestamp, each with the topic and checksum of its connection, its time and its bytes; nothing throws, and when the loop ends all have been delivered |
| OneMessageBags.OneMessageIsWritten | lib/embag.cc:147-300 | a file of the required kind |
| BagTypes.SameMeaning | lib/ros_bag_types.h:24-30 | connections are equal iff they differ in nothing but scope, definition and count |
| ConnectionGroups.BagConnectionsByTopic | lib/embag.h:67-76 | the data behind the connections of each topic, for any order of the topic map |
| ConnectionGroups.GroupMeaning | lib/view.h:148-155 | grouping is a group-by: entries pairwise different, classes kept, class totals and grand total kept |
| ConnectionGroups.SameIsEquivalence | lib/ros_bag_types.h:24-30 | connection equality is an equivalence |
| ConnectionGroups.EntryIsClassTotal | lib/view.h:153-153 | the count of an entry is the total of its class |
| ConnectionGroups.GroupsIgnoreBagOrder | lib/view.h:143-157 | adding the same bags in any order gives every topic the same class totals |
| ConnectionGroups.MergeInto | lib/view.h:148-155 | the innermost loop is one grouping step per connection |
| ConnectionGroups.MergeBag | lib/view.h:144-156 | one bag merged in, for any order of its topics |
| ConnectionGroups.ConnectionsByTopic | lib/view.h:141-159 | every topic maps to the grouping of its connections over all bags |
| Schemas.SchemaForField | python/schema_builder.cc:23-67 | the dictionary of a field, from its definition |
| Schemas.SchemaForMembers | python/schema_builder.cc:34-40 | one entry per field in order, constants left out |
| Schemas.SchemasInOrder | python/schema_builder.cc:13-18 | with unique names the schema lists the fields in their order, each with its own schema |
| Schemas.ResolvedGraphIsBuilt | lib/ros_msg_types.h:122-152 | a resolved graph has typed fields with position indexes iff no definition uses a name twice |
| Schemas.SchemaDescribesEveryMessage | python/schema_builder.cc:3-67 | the schema describes the arena of every message of its definition: order and names of fields, object or array, element kinds, and the index of each name |

## Left out

- LZ4 and bz2: foreign code; unpacking is a function of compression, data and size.  A chunk is required to unpack to its stated size.
- The grammar of message definitions: the model starts from the parsed form; parsing is a function from text to that form or nothing.
- File mapping, stream state, the magic string and the version check: a file is a byte sequence, and its first record starts after the first line.
- Files that are cut short or whose records lack required fields: the code reads them unchecked or throws; the model requires a file that its records describe, with connection ids inside the table.
- A field without a separator in a chunk: the null test of the first-letter header reader can never fire, so the model requires a separator in every field there.
- What primitive bytes mean: primitives are byte strings, except for lengths and timestamps; how `toString` prints them is a function from outside.  `to_sec` is not modelled.
- C++ memory: unions, weak pointers, reserve, and vector growth are not modelled; a pointer into a vector is an index, and a definition pointer is a key of the definition map.
- Widths of `size_t` counters and indexes are unbounded; the 32-bit chunk count wraps as in the source.
- Array lengths of 2^31 and more in a definition, which the source stores in a signed 32-bit field, are not modelled.
- An array `T[0]` in a definition has the same parsed form as a scalar `T`, and the source decodes it as one; the model follows the source.
- Parser.MessageParser.Parse: a definition graph may be recursive, since the walk is bounded by the value; AnyBuffer.ParseBuffer, which is not given a value, needs one without cycles.  Running out of memory is not modelled.
- Parser.MessageParser.InitArray: the unset parts of a cell are `None`, where the source leaves memory as it is.
- Views.Iterator.Push: the library may put either of two wrappers with equal times on top; the model leaves the choice open.
- Bags.Bag.MsgDefForTopic: a failing call leaves the memo alone here; whether the source leaves an empty entry depends on the evaluation order of an assignment.
- Schemas.SchemaForField: needs a definition graph without cycles (on one with cycles the source would not end); dictionaries are ordered lists of entries.
- Schemas.SchemaDescribesEveryMessage: needs unique field names in every definition.
- Access.MessagePath: the primitive readers of the model fail when a value does not lie wholly inside the buffer; the source checks only the address of its first byte, and for a string not where it ends, so outside a complete serialization it reads beyond the buffer where the model fails.  `as<T>` rejects only objects and arrays: on strings, on primitive arrays and for a T of another size it reads whatever bytes are at the offset, where the model fails or gives the bytes of the value's own type.
- Iterators over values are the indexes below the size; the order of iterators over keys is that of an unordered map and not modelled.
- An iterator that has thrown, and iterators that share wrappers with another one still in use, are not modelled.
- EndToEnd.DecodeFiles: the selected chunks hold records that the first-letter header reader reads within bounds: a separator in every field, a byte in every value that starts with `o`, and at least four and eight bytes in the values of a message that start with `c` and `t`; the meaning of the messages is given from outside.
- Selecting.SelectCovers: needs chunks that end at different places of the file; the chunk set keeps only one of those that end at the same place.
- `getStartTime` and `getEndTime`, `topics`, `topicInBag`, the Python bindings, `embag_echo` and packaging: they would only add easy members.
