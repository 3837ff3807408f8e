/** The class Bag: reading the index of a bag file from its bytes, and the memo of message definitions. */
module Bags {
  import opened Wrappers
  import opened Bytes
  import opened RosTimes
  import opened MsgTypes
  import opened Framing
  import opened BagTypes
  import opened BagIndex

  /** The records of a bag file that the index is read from; bodies[i] are the fields in the data of connections[i]. */
  datatype ChunkLayout = ChunkLayout(chunk: Record, index: seq<Record>)
  datatype BagLayout = BagLayout(
    header: Record, connections: seq<Record>, bodies: seq<seq<Field>>, infos: seq<Record>, chunks: seq<ChunkLayout>)

  /** The first record follows the magic string, the version and a newline. */
  const HEADER_POS: nat := 13

  function HeaderMap(r: Record): FieldMap { LastWins(r.fields) }

  function EntryOf(r: Record, body: seq<Field>): ConnectionEntry {
    ConnectionEntry(HeaderMap(r), LastWins(body))
  }

  function Entries(l: BagLayout): seq<ConnectionEntry>
    requires |l.bodies| == |l.connections|
  {
    seq(|l.connections|, i requires 0 <= i < |l.connections| => EntryOf(l.connections[i], l.bodies[i]))
  }

  function IndexEntries(rs: seq<Record>): seq<IndexEntry> {
    seq(|rs|, i requires 0 <= i < |rs| => IndexEntryOf(HeaderMap(rs[i])))
  }

  function AllIndexes(cs: seq<ChunkLayout>): seq<seq<IndexEntry>> {
    seq(|cs|, i requires 0 <= i < |cs| => IndexEntries(cs[i].index))
  }

  function InfoOf(r: Record): ChunkInfo {
    var m := HeaderMap(r);
    ChunkInfo(U64Field(m, "chunk_pos"), TimeField(m, "start_time"), TimeField(m, "end_time"), 0, U32Field(m, "count"))
  }

  function InfosOf(rs: seq<Record>): seq<ChunkInfo> {
    seq(|rs|, i requires 0 <= i < |rs| => InfoOf(rs[i]))
  }

  predicate Supported(r: Record) {
    TextField(HeaderMap(r), "compression") in {"lz4", "bz2", "none"}
  }

  /** The foreign decompressors, by compression, data and size. */
  type Unpacker = (string, seq<byte>, nat) -> seq<byte>

  function Decompress(unpack: Unpacker, compression: string, data: seq<byte>, size: nat): seq<byte> {
    if compression == "none" && size <= |data| then data[..size] else unpack(compression, data, size)
  }

  /** The entry of a chunk after its INDEX_DATA records have been counted, in 32 bits. */
  function ChunkOf(info: Record, c: ChunkLayout, unpack: Unpacker): Chunk {
    var m := HeaderMap(c.chunk);
    var compression, size := TextField(m, "compression"), U32Field(m, "size");
    Chunk(InfoOf(info).chunkPos + |RecordBytes(c.chunk)|,
      InfoOf(info).(messageCount := Wrap32(Total(IndexEntries(c.index)))),
      compression, size, Decompress(unpack, compression, c.chunk.data, size))
  }

  function ChunksOf(l: BagLayout, unpack: Unpacker): seq<Chunk>
    requires |l.infos| == |l.chunks|
  {
    seq(|l.chunks|, i requires 0 <= i < |l.chunks| => ChunkOf(l.infos[i], l.chunks[i], unpack))
  }

  /** An uncompressed chunk holds as many bytes of its record as its size says, all of them when the size is that of the
      data; any other holds what its compression makes of them. */
  lemma ContentOfChunk(info: Record, c: ChunkLayout, unpack: Unpacker)
    ensures
      var m, r := HeaderMap(c.chunk), ChunkOf(info, c, unpack);
      var compression, size := TextField(m, "compression"), U32Field(m, "size");
      && r.compression == compression && r.uncompressedSize == size
      && (compression == "none" && size <= |c.chunk.data| ==>
        |r.content| == size && forall i :: 0 <= i < size ==> r.content[i] == c.chunk.data[i])
      && (compression == "none" && size == |c.chunk.data| ==> r.content == c.chunk.data)
      && (compression in {"lz4", "bz2"} ==> r.content == unpack(compression, c.chunk.data, size))
  {
    hide HeaderMap, InfoOf, IndexEntries, Total, RecordBytes;
    assert |"lz4"| == |"bz2"| == 3 && |"none"| == 4;
    assert c.chunk.data[..|c.chunk.data|] == c.chunk.data;
  }

  /** The counts in the chunk table are those of the INDEX_DATA records, in 32 bits. */
  lemma {:induction false} CountsOfChunks(l: BagLayout, unpack: Unpacker)
    requires |l.infos| == |l.chunks|
    ensures SumMessageCounts(ChunksOf(l, unpack)) == SumChunkCounts(AllIndexes(l.chunks))
    decreases |l.chunks|
  {
    hide Total, IndexEntries, InfoOf, HeaderMap, Decompress, TextField, U32Field, RecordBytes;
    if l.chunks != [] {
      var k := |l.chunks| - 1;
      var before := l.(infos := l.infos[..k], chunks := l.chunks[..k]);
      CountsOfChunks(before, unpack);
      assert ChunksOf(l, unpack)[..k] == ChunksOf(before, unpack);
      assert AllIndexes(l.chunks)[..k] == AllIndexes(before.chunks);
    }
  }

  /** Conservation of message counts in what readRecords builds: the counts of the connection table sum to the counts of
      all INDEX_DATA records, and so do the counts of the chunk table iff no chunk has 2^32 messages or more. */
  lemma CountsAreConserved(l: BagLayout, unpack: Unpacker)
    requires |l.infos| == |l.chunks| && |l.bodies| == |l.connections|
    requires AllInTable(AllIndexes(l.chunks), |l.connections|)
    ensures SumCounts(AddChunks(Table(Entries(l), |l.connections|), AllIndexes(l.chunks))) ==
      GrandTotal(AllIndexes(l.chunks))
    ensures SumMessageCounts(ChunksOf(l, unpack)) == GrandTotal(AllIndexes(l.chunks)) <==>
      forall i :: 0 <= i < |l.chunks| ==> Total(IndexEntries(l.chunks[i].index)) < TWO_TO_32
  {
    hide SumMessageCounts, SumChunkCounts, SumCounts, GrandTotal, Total, ChunksOf, IndexEntries, AddChunks, Table;
    CountsOfChunks(l, unpack);
    IndexCounts(Entries(l), |l.connections|, AllIndexes(l.chunks));
    assert forall i :: 0 <= i < |l.chunks| ==> AllIndexes(l.chunks)[i] == IndexEntries(l.chunks[i].index);
  }

  // ---------- A complete file ----------

  predicate GoodConnection(r: Record, body: seq<Field>) {
    && SmallRecord(r) && HasU32(HeaderMap(r), "conn") && "topic" in HeaderMap(r)
    && (TextField(HeaderMap(r), "topic") != "" ==>
      GoodFields(body) && r.data == Encode(body) &&
      "type" in LastWins(body) && "md5sum" in LastWins(body) && "message_definition" in LastWins(body))
  }

  predicate GoodInfo(r: Record) {
    var m := HeaderMap(r);
    SmallRecord(r) && HasU32(m, "ver") && HasU64(m, "chunk_pos") && HasU64(m, "start_time") && HasU64(m, "end_time") &&
      HasU32(m, "count")
  }

  predicate GoodIndexRecord(r: Record) {
    var m := HeaderMap(r);
    SmallRecord(r) && HasU32(m, "ver") && HasU32(m, "conn") && HasU32(m, "count")
  }

  predicate GoodChunk(file: seq<byte>, info: Record, c: ChunkLayout) {
    && GoodInfo(info) && |c.index| == InfoOf(info).connectionCount
    && SmallRecord(c.chunk) && "compression" in HeaderMap(c.chunk) && HasU32(HeaderMap(c.chunk), "size")
    && (forall j :: 0 <= j < |c.index| ==> GoodIndexRecord(c.index[j]))
    && Holds(file, InfoOf(info).chunkPos, RecordsBytes([c.chunk] + c.index))
  }

  /** The file holds the records of the layout where its header and its CHUNK_INFO records say. */
  predicate Describes(file: seq<byte>, l: BagLayout) {
    var m := HeaderMap(l.header);
    && SmallRecord(l.header) && Holds(file, HEADER_POS, RecordBytes(l.header))
    && HasU32(m, "conn_count") && HasU32(m, "chunk_count") && HasU64(m, "index_pos")
    && U32Field(m, "conn_count") == |l.connections| == |l.bodies|
    && U32Field(m, "chunk_count") == |l.infos| == |l.chunks|
    && Holds(file, U64Field(m, "index_pos"), RecordsBytes(l.connections + l.infos))
    && (forall i :: 0 <= i < |l.connections| ==> GoodConnection(l.connections[i], l.bodies[i]))
    && (forall i :: 0 <= i < |l.infos| ==> GoodChunk(file, l.infos[i], l.chunks[i]))
    && IdsInRange(Entries(l), |l.connections|)
    && AllInTable(AllIndexes(l.chunks), |l.connections|)
  }

  datatype BagError =
    | UnsupportedCompression(compression: string)
    | NoSuchTopic(topic: string)
    | BadDefinition
    | UnresolvedType(error: ResolveError)

  /** The foreign grammar of message definitions. */
  type Grammar = string -> Option<MsgAst>

  ghost function DefinitionUnder(grammar: Grammar, data: ConnectionData): Option<(BaseDef, Definitions)> {
    match grammar(data.messageDefinition)
    case None => None
    case Some(ast) =>
      if Resolvable(ast, data.msgType) then
        var embedded := EmbeddedMap(ast.embedded);
        Some((ResolveDef(BaseOf(ast.members, data.msgType), embedded.Keys), ResolvedGraph(embedded)))
      else None
  }

  /** Two connections stand for the same definition whatever the grammar, iff they have the same definition text and
      type. */
  lemma SameDefinitionIffSameText(a: ConnectionData, b: ConnectionData)
    ensures (forall g: Grammar :: DefinitionUnder(g, a) == DefinitionUnder(g, b)) <==>
      a.messageDefinition == b.messageDefinition && a.msgType == b.msgType
  {
    hide HasDangling, ResolvedGraph;
    if a.messageDefinition != b.messageDefinition || a.msgType != b.msgType {
      var empty := MsgAst([], []);
      var g: Grammar := (text: string) => if text == a.messageDefinition then Some(empty) else None;
      NothingDangles(a.msgType);
      NothingDangles(b.msgType);
      assert DefinitionUnder(g, a).Some? && DefinitionUnder(g, a).value.0.name == a.msgType;
      assert DefinitionUnder(g, b).Some? ==> DefinitionUnder(g, b).value.0.name == b.msgType;
      assert DefinitionUnder(g, a) != DefinitionUnder(g, b);
    }
  }

  /** Some grammar gives the data a definition. */
  lemma SomeDefinition(data: ConnectionData) returns (g: Grammar)
    ensures DefinitionUnder(g, data).Some?
  {
    g := (text: string) => Some(MsgAst([], []));
    NothingDangles(data.msgType);
  }

  lemma NothingDangles(name: string)
    ensures Resolvable(MsgAst([], []), name)
  {
  }

  class Bag {
    const unpack: Unpacker
    const grammar: Grammar
    var connections: Connections
    var topicConnectionMap: TopicMap
    var chunkInfos: seq<ChunkInfo>
    var chunks: seq<Chunk>
    var messageSchemata: map<string, MsgDef>

    constructor (unpack: Unpacker, grammar: Grammar)
      ensures this.unpack == unpack && this.grammar == grammar
      ensures connections == [] && topicConnectionMap == map[] && chunkInfos == [] && chunks == [] &&
        messageSchemata == map[]
    {
      this.unpack, this.grammar := unpack, grammar;
      connections, topicConnectionMap, chunkInfos, chunks, messageSchemata := [], map[], [], [], map[];
    }

    /** Bag::readRecords: the index, computed from the bytes of the file; it fails iff some chunk has an unsupported
        compression. */
    method ReadRecords(file: seq<byte>, ghost l: BagLayout) returns (r: Result<(), BagError>)
      requires Describes(file, l)
      requires connections == [] && topicConnectionMap == map[] && chunkInfos == [] && chunks == []
      modifies this`connections, this`topicConnectionMap, this`chunkInfos, this`chunks
      ensures r.Ok? <==> forall i :: 0 <= i < |l.chunks| ==> Supported(l.chunks[i].chunk)
      ensures r.Ok? ==>
        && connections == AddChunks(Table(Entries(l), |l.connections|), AllIndexes(l.chunks))
        && topicConnectionMap == Topics(Entries(l))
        && chunks == ChunksOf(l, unpack)
        && |chunkInfos| == |chunks| && forall i :: 0 <= i < |chunks| ==> chunkInfos[i] == chunks[i].info
    {
      hide Encode, RecordBytes, LastWins, IdsInRange, GoodConnection, GoodChunk, AllInTable, AddChunks, Table, Topics,
        ChunksOf, Supported;
      var v, next := ReadRecord(file, HEADER_POS, l.header);
      var header := ReadRecordHeader(file, v, l.header.fields);
      var connectionCount := ReadU32(header["conn_count"], 0);
      var chunkCount := ReadU32(header["chunk_count"], 0);
      var indexPos := ReadU64(header["index_pos"], 0);
      connections := EmptyTable(connectionCount);
      RecordsConcat(file, indexPos, l.connections, l.infos);
      var pos := ReadConnections(file, indexPos, connectionCount, l);
      ReadChunkInfos(file, pos, chunkCount, l);
      r := ReadChunks(file, chunkCount, l);
    }

    /** The resolved definition that connection data stands for, if its text parses and resolves. */
    ghost function DefinitionOf(data: ConnectionData): Option<(BaseDef, Definitions)> {
      DefinitionUnder(grammar, data)
    }

    /** The definition of a topic is that of its first connection. */
    ghost function TopicDefinition(topic: string): Option<(BaseDef, Definitions)>
      reads this`topicConnectionMap, this`connections
    {
      if topic in topicConnectionMap && topicConnectionMap[topic] != [] && topicConnectionMap[topic][0] < |connections|
      then DefinitionOf(connections[topicConnectionMap[topic][0]].data) else None
    }

    /** What a topic's messages are decoded with is the definition of their own connection when that has the definition
        text and the type of the topic's first connection. */
    lemma TopicDefinitionIsOwn(c: nat)
      requires c < |connections| && Linked()
      requires connections[c].topic in topicConnectionMap && topicConnectionMap[connections[c].topic] != []
      requires
        var first := connections[topicConnectionMap[connections[c].topic][0]].data;
        first.messageDefinition == connections[c].data.messageDefinition && first.msgType == connections[c].data.msgType
      ensures TopicDefinition(connections[c].topic) == DefinitionOf(connections[c].data)
    {
      var first := connections[topicConnectionMap[connections[c].topic][0]].data;
      SameDefinitionIffSameText(first, connections[c].data);
    }

    predicate Linked()
      reads this`topicConnectionMap, this`connections
    {
      forall t :: t in topicConnectionMap ==> forall i :: 0 <= i < |topicConnectionMap[t]| ==>
        topicConnectionMap[t][i] < |connections|
    }

    /** Every memoised definition is the one of its topic. */
    ghost predicate Memo()
      reads this`topicConnectionMap, this`connections, this`messageSchemata, messageSchemata.Values
    {
      forall t :: t in messageSchemata ==>
        TopicDefinition(t) == Some((messageSchemata[t].root, messageSchemata[t].definitions))
    }

    /** Bag::msgDefForTopic: the memo never changes an answer, and it fails iff the topic has no definition. */
    method MsgDefForTopic(topic: string) returns (r: Result<MsgDef, BagError>)
      requires Linked() && Memo()
      modifies this`messageSchemata
      ensures Memo()
      ensures r.Ok? <==> TopicDefinition(topic) != None
      ensures r.Ok? ==> TopicDefinition(topic) == Some((r.value.root, r.value.definitions))
      ensures r.Ok? ==> messageSchemata == old(messageSchemata)[topic := r.value]
      ensures topic in old(messageSchemata) ==> r == Ok(old(messageSchemata)[topic])
    {
      hide DefinitionOf;
      if topic in messageSchemata {
        return Ok(messageSchemata[topic]);
      }
      if topic !in topicConnectionMap || topicConnectionMap[topic] == [] {
        return Err(NoSuchTopic(topic));
      }
      var data := connections[topicConnectionMap[topic][0]].data;
      var parsed := ParseMsgDef(data);
      if parsed.Err? {
        return parsed;
      }
      messageSchemata := messageSchemata[topic := parsed.value];
      r := Ok(messageSchemata[topic]);
    }

    /** parseMsgDef: the grammar, then the MsgDef constructor. */
    method ParseMsgDef(data: ConnectionData) returns (r: Result<MsgDef, BagError>)
      ensures r.Ok? <==> DefinitionOf(data) != None
      ensures r.Ok? ==> fresh(r.value) && DefinitionOf(data) == Some((r.value.root, r.value.definitions))
    {
      hide Resolvable, ResolvedGraph, ResolveDef, BaseOf, EmbeddedMap, Closed;
      var ast := grammar(data.messageDefinition);
      if ast == None {
        return Err(BadDefinition);
      }
      var built := BuildMsgDef(ast.value, data.msgType);
      if built.Err? {
        return Err(UnresolvedType(built.error));
      }
      r := Ok(built.value);
    }

    /** The loop over the CONNECTION records. */
    method ReadConnections(file: seq<byte>, start: nat, connectionCount: nat, ghost l: BagLayout) returns (pos: nat)
      requires |l.connections| == |l.bodies| == connectionCount
      requires Holds(file, start, RecordsBytes(l.connections))
      requires forall i :: 0 <= i < |l.connections| ==> GoodConnection(l.connections[i], l.bodies[i])
      requires IdsInRange(Entries(l), connectionCount)
      requires connections == EmptyTable(connectionCount) && topicConnectionMap == map[]
      modifies this`connections, this`topicConnectionMap
      ensures connections == Table(Entries(l), connectionCount) && topicConnectionMap == Topics(Entries(l))
      ensures pos == start + |RecordsBytes(l.connections)|
    {
      hide Encode, RecordBytes, LastWins, RecordsBytes, Table, Topics;
      ghost var es, rs := Entries(l), l.connections;
      TableStep(es, 0, connectionCount);
      pos := start;
      assert rs[0..] == rs;
      for i := 0 to connectionCount
        invariant Holds(file, pos, RecordsBytes(rs[i..])) && pos + |RecordsBytes(rs[i..])| == start + |RecordsBytes(rs)|
        invariant connections == Table(es[..i], connectionCount) && topicConnectionMap == Topics(es[..i])
      {
        RecordsStep(file, pos, rs, i);
        assert GoodConnection(rs[i], l.bodies[i]);
        TableStep(es, i, connectionCount);
        var v, next := ReadRecord(file, pos, rs[i]);
        var header := ReadRecordHeader(file, v, rs[i].fields);
        var connectionId := ReadU32(header["conn"], 0);
        var topic := Chars(header["topic"]);
        if topic != "" {
          var data := ReadConnectionData(file, v, topic, l.bodies[i]);
          assert data == es[i].Data();
          var entry := connections[connectionId].(id := connectionId, topic := topic, data := data);
          connections := connections[connectionId := entry];
          topicConnectionMap := topicConnectionMap[topic :=
            (if topic in topicConnectionMap then topicConnectionMap[topic] else []) + [connectionId]];
        }
        pos := next;
      }
      assert es[..connectionCount] == es;
      EmptyRecords(rs);
    }

    /** The data of a CONNECTION record, itself a list of fields. */
    method ReadConnectionData(file: seq<byte>, v: RecordView, topic: string, ghost body: seq<Field>)
      returns (data: ConnectionData)
      requires GoodFields(body) && Holds(file, v.data, Encode(body)) && v.dataLen == |Encode(body)|
      requires "type" in LastWins(body) && "md5sum" in LastWins(body) && "message_definition" in LastWins(body)
      ensures forall header: FieldMap :: TextField(header, "topic") == topic ==>
        data == ConnectionEntry(header, LastWins(body)).Data()
    {
      hide LastWins;
      FieldsRoundTrip(body);
      var r := ReadFields(file, v.data, v.dataLen, Contents(body));
      var fields := r.value;
      var msgType := Chars(fields["type"]);
      data := ConnectionData(topic, msgType, ScopeOf(msgType), Chars(fields["md5sum"]),
        Chars(fields["message_definition"]),
        if "callerid" in fields then Chars(fields["callerid"]) else "",
        "latching" in fields && Chars(fields["latching"]) == "1", 0);
    }

    /** The loop over the CHUNK_INFO records, which fills storage reserved for all of them. */
    method ReadChunkInfos(file: seq<byte>, start: nat, chunkCount: nat, ghost l: BagLayout)
      requires |l.infos| == |l.chunks| == chunkCount && Holds(file, start, RecordsBytes(l.infos))
      requires forall i :: 0 <= i < |l.infos| ==> GoodChunk(file, l.infos[i], l.chunks[i])
      requires chunkInfos == []
      modifies this`chunkInfos
      ensures chunkInfos == InfosOf(l.infos)
    {
      hide Encode, RecordBytes, LastWins, RecordsBytes;
      ghost var rs := l.infos;
      var pos := start;
      assert rs[0..] == rs;
      for i := 0 to chunkCount
        invariant Holds(file, pos, RecordsBytes(rs[i..]))
        invariant chunkInfos == InfosOf(rs)[..i]
      {
        RecordsStep(file, pos, rs, i);
        assert GoodChunk(file, rs[i], l.chunks[i]);
        var v, next := ReadRecord(file, pos, rs[i]);
        var header := ReadRecordHeader(file, v, rs[i].fields);
        var info := ChunkInfo(ReadU64(header["chunk_pos"], 0),
          ReadTime(header["start_time"], 0), ReadTime(header["end_time"], 0),
          0, ReadU32(header["count"], 0));
        assert info == InfoOf(rs[i]);
        chunkInfos := chunkInfos + [info];
        pos := next;
      }
    }

    /** The loop over the CHUNK records and the INDEX_DATA records behind each of them.  While chunk i is read,
        references to slot i of the chunk table are handed out although the chunk is only pushed afterwards. */
    method ReadChunks(file: seq<byte>, chunkCount: nat, ghost l: BagLayout) returns (r: Result<(), BagError>)
      requires |l.infos| == |l.chunks| == chunkCount
      requires forall i :: 0 <= i < |l.infos| ==> GoodChunk(file, l.infos[i], l.chunks[i])
      requires chunkInfos == InfosOf(l.infos) && chunks == []
      requires AllInTable(AllIndexes(l.chunks), |connections|)
      modifies this`connections, this`chunkInfos, this`chunks
      ensures r.Ok? <==> forall i :: 0 <= i < |l.chunks| ==> Supported(l.chunks[i].chunk)
      ensures r.Ok? ==>
        && connections == AddChunks(old(connections), AllIndexes(l.chunks))
        && chunks == ChunksOf(l, unpack)
        && |chunkInfos| == |chunks| && forall i :: 0 <= i < |chunks| ==> chunkInfos[i] == chunks[i].info
    {
      hide Encode, RecordBytes, LastWins, RecordsBytes, ChunkOf, AddChunks, AddIndexes, GoodChunk, Supported, InfoOf,
        AllInTable, InTable, IndexEntries;
      ghost var all, table := AllIndexes(l.chunks), connections;
      AddChunksStep(table, all, 0);
      for i := 0 to chunkCount
        invariant |chunkInfos| == chunkCount && chunkInfos[i..] == InfosOf(l.infos)[i..]
        invariant forall j :: 0 <= j < i ==> Supported(l.chunks[j].chunk)
        invariant |chunks| == i && chunks == ChunksOf(l, unpack)[..i]
        invariant forall j :: 0 <= j < i ==> chunkInfos[j] == chunks[j].info
        invariant AllInTable(all[..i], |table|) && connections == AddChunks(table, all[..i])
      {
        AddChunksStep(table, all, i);
        ghost var c := l.chunks[i];
        assert GoodChunk(file, l.infos[i], c);
        assert chunkInfos[i] == chunkInfos[i..][0] == InfoOf(l.infos[i]);
        var chunk := ReadChunk(file, chunkInfos[i], i, l.infos[i], c);
        if chunk.Err? {
          return Err(chunk.error);
        }
        chunkInfos := chunkInfos[i := chunk.value.info];
        chunks := chunks + [chunk.value];
      }
      assert all[..chunkCount] == all;
      r := Ok(());
    }

    /** One CHUNK record and the INDEX_DATA records behind it. */
    method ReadChunk(file: seq<byte>, info: ChunkInfo, i: nat, ghost r: Record, ghost c: ChunkLayout)
      returns (chunk: Result<Chunk, BagError>)
      requires GoodChunk(file, r, c) && info == InfoOf(r)
      requires InTable(IndexEntries(c.index), |connections|)
      modifies this`connections
      ensures chunk.Ok? <==> Supported(c.chunk)
      ensures chunk.Ok? ==>
        chunk.value == ChunkOf(r, c, unpack) && connections == AddIndexes(old(connections), IndexEntries(c.index), i)
    {
      hide Encode, RecordBytes, LastWins, RecordsBytes, AddIndexes, Total, Wrap32, InTable, Decompress,
        GoodIndexRecord, GoodInfo;
      ghost var rs := [c.chunk] + c.index;
      assert rs[0..] == rs && rs[1..] == c.index;
      RecordsStep(file, info.chunkPos, rs, 0);
      var v, pos := ReadRecord(file, info.chunkPos, c.chunk);
      var header := ReadRecordHeader(file, v, c.chunk.fields);
      var compression := Chars(header["compression"]);
      var size := ReadU32(header["size"], 0);
      if !(compression == "lz4" || compression == "bz2" || compression == "none") {
        return Err(UnsupportedCompression(compression));
      }
      var count := ReadIndexes(file, pos, info.connectionCount, i, c.index);
      var data := file[v.data..v.data + v.dataLen];
      chunk := Ok(Chunk(pos, info.(messageCount := count), compression, size,
        Decompress(unpack, compression, data, size)));
    }

    /** The inner loop over the INDEX_DATA records of one chunk; the count wraps at 2^32. */
    method ReadIndexes(file: seq<byte>, start: nat, indexCount: nat, chunk: nat, ghost rs: seq<Record>)
      returns (count: nat)
      requires |rs| == indexCount && Holds(file, start, RecordsBytes(rs))
      requires forall j :: 0 <= j < |rs| ==> GoodIndexRecord(rs[j])
      requires InTable(IndexEntries(rs), |connections|)
      modifies this`connections
      ensures connections == AddIndexes(old(connections), IndexEntries(rs), chunk)
      ensures count == Wrap32(Total(IndexEntries(rs)))
    {
      hide Encode, RecordBytes, LastWins, RecordsBytes, AddIndexes, Total, InTable, Wrap32;
      Wrap32Add(0, 0);
      ghost var es, table := IndexEntries(rs), connections;
      AddIndexesStep(table, es, 0, chunk);
      var pos := start;
      count := 0;
      assert rs[0..] == rs;
      for j := 0 to indexCount
        invariant Holds(file, pos, RecordsBytes(rs[j..]))
        invariant InTable(es[..j], |table|) && connections == AddIndexes(table, es[..j], chunk)
        invariant count == Wrap32(Total(es[..j]))
      {
        RecordsStep(file, pos, rs, j);
        assert GoodIndexRecord(rs[j]);
        AddIndexesStep(table, es, j, chunk);
        var v, next := ReadRecord(file, pos, rs[j]);
        var header := ReadRecordHeader(file, v, rs[j].fields);
        var connectionId := ReadU32(header["conn"], 0);
        var msgCount := ReadU32(header["count"], 0);
        assert es[j] == IndexEntry(connectionId, msgCount);
        Wrap32Add(Total(es[..j]), msgCount);
        count := Wrap32(count + msgCount);
        var c := connections[connectionId];
        connections := connections[connectionId := c.(blocks := c.blocks + [IndexBlock(chunk)],
          data := c.data.(messageCount := c.data.messageCount + msgCount))];
        pos := next;
      }
      assert es[..indexCount] == es;
    }
  }

  lemma EmptyRecords(rs: seq<Record>)
    ensures RecordsBytes(rs[|rs|..]) == []
  {
  }
}
