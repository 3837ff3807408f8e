/** The tables of an open bag.  A C++ pointer into a table is an index of that table. */
module BagTypes {
  import opened Bytes
  import opened RosTimes

  datatype ChunkInfo = ChunkInfo(chunkPos: nat, startTime: Time, endTime: Time, messageCount: nat, connectionCount: nat)

  /** content is what decompress() writes for this chunk: a function of its compression and data. */
  datatype Chunk = Chunk(offset: nat, info: ChunkInfo, compression: string, uncompressedSize: nat, content: seq<byte>)

  datatype IndexBlock = IndexBlock(intoChunk: nat)

  datatype ConnectionData = ConnectionData(
    topic: string, msgType: string, scope: string, md5sum: string, messageDefinition: string,
    callerid: string, latching: bool, messageCount: nat)
  {
    /** connection_data_t::operator==, which ignores scope, definition and count. */
    predicate Same(other: ConnectionData) {
      other.topic == topic && other.msgType == msgType && other.md5sum == md5sum &&
      other.callerid == callerid && other.latching == latching
    }
  }

  /** Equal connections differ in nothing but scope, definition and count. */
  lemma SameMeaning(a: ConnectionData, b: ConnectionData)
    ensures a.Same(b) <==>
      a.(scope := b.scope, messageDefinition := b.messageDefinition, messageCount := b.messageCount) == b
  {
  }

  datatype ConnectionRecord = ConnectionRecord(id: nat, blocks: seq<IndexBlock>, topic: string, data: ConnectionData)
}
