/**
 * The multi-bag iterator: one wrapper per bag that scans the records of its chunks and can stop after any message, and
 * a queue of wrappers ordered by the timestamp of the message each has published.
 */
module Views {
  import opened Wrappers
  import opened Bytes
  import opened RosTimes
  import opened Framing
  import opened BagTypes
  import opened Scan
  import opened Merge
  import opened Runs
  import opened Bags
  import opened Messages

  /** What the decompressed chunk holds. */
  predicate Readable(c: Chunk, rs: seq<Record>) {
    GoodRecords(rs) && c.content == RecordsBytes(rs) && |c.content| == c.uncompressedSize
  }

  predicate AllReadable(cs: seq<Chunk>, log: Log) {
    forall i :: 0 <= i < |cs| ==> Readable(cs[i], log(cs[i]))
  }

  /** View::iterator::bag_wrapper_t, with the records behind the bytes as ghosts. */
  class BagWrapper {
    const bag: Bag
    ghost const log: Log
    ghost const slot: nat
    var chunksToParse: seq<Chunk>
    var connectionIds: set<nat>
    var chunkIter: nat
    var processedBytes: nat
    var uncompressedSize: nat
    var currentBuffer: array?<byte>
    var currentConnectionId: nat
    var currentMessageBuffer: array?<byte>
    var currentMessageDataOffset: nat
    var currentMessageLen: nat
    var currentTimestamp: Time
    ghost var openChunk: nat
    ghost var taken: nat

    constructor (bag: Bag, ghost log: Log, ghost slot: nat)
      ensures this.bag == bag && this.log == log && this.slot == slot
      ensures chunksToParse == [] && connectionIds == {} && Rewound() && chunkIter == 0
    {
      this.bag, this.log, this.slot := bag, log, slot;
      chunksToParse, connectionIds, chunkIter := [], {}, 0;
      processedBytes, uncompressedSize, currentBuffer := 0, 0, null;
      currentConnectionId, currentMessageBuffer, currentMessageDataOffset, currentMessageLen := 0, null, 0, 0;
      currentTimestamp, openChunk, taken := Time(0, 0), 0, 0;
    }

    /** No chunk is open: the state of a new wrapper and of one that has reached its end. */
    predicate Rewound()
      reads this
    {
      currentBuffer == null && processedBytes == 0
    }

    /** The records of the open chunk.  It is not the one that chunkIter is at after begin() has been called again. */
    ghost function Current(): seq<Record>
      requires openChunk < |chunksToParse|
      reads this`openChunk, this`chunksToParse
    {
      log(chunksToParse[openChunk])
    }

    /** The rest of the open chunk is in the buffer. */
    ghost predicate InChunk()
      reads this`openChunk, this`chunksToParse, this`processedBytes, this`uncompressedSize, this`currentBuffer,
        this`taken
      reads currentBuffer
    {
      && currentBuffer != null && openChunk < |chunksToParse| && taken <= |Current()|
      && currentBuffer[..] == chunksToParse[openChunk].content && uncompressedSize == currentBuffer.Length
      && Holds(currentBuffer[..], processedBytes, RecordsBytes(Current()[taken..]))
      && processedBytes + |RecordsBytes(Current()[taken..])| == uncompressedSize
    }

    ghost predicate Valid()
      reads this`chunkIter, this`openChunk, this`chunksToParse, this`processedBytes, this`uncompressedSize,
        this`currentBuffer
      reads this`taken, currentBuffer
    {
      && chunkIter <= |chunksToParse| && AllReadable(chunksToParse, log)
      && (currentBuffer == null ==> processedBytes == 0 && Clean(Logs(chunksToParse[..chunkIter], log)))
      && (currentBuffer != null ==>
        && InChunk() && chunkIter <= openChunk && Clean(Logs(chunksToParse[..openChunk], log))
        && PassedPart(Current(), taken))
    }

    /** What the scan of this wrapper brings from chunk n on, after the open chunk if there is one. */
    ghost function RemainingFrom(n: nat): seq<Event>
      requires Valid() && n <= |chunksToParse| && (currentBuffer != null ==> n < |chunksToParse|)
      reads this`chunkIter, this`openChunk, this`chunksToParse, this`processedBytes, this`uncompressedSize,
        this`currentBuffer
      reads this`taken, currentBuffer, this`connectionIds
    {
      if currentBuffer == null then NextChunk(Logs(chunksToParse[n..], log), connectionIds)
      else Pending(Current()[taken..], Logs(chunksToParse[n + 1..], log), connectionIds)
    }

    /** What the scan of this wrapper still has to bring. */
    ghost function Remaining(): seq<Event>
      requires Valid()
      reads this`chunkIter, this`openChunk, this`chunksToParse, this`processedBytes, this`uncompressedSize,
        this`currentBuffer
      reads this`taken, currentBuffer, this`connectionIds
    {
      RemainingFrom(chunkIter)
    }

    /** What it brings after begin(), which resets nothing but chunkIter. */
    ghost function Restarted(): seq<Event>
      requires Valid()
      reads this`chunkIter, this`openChunk, this`chunksToParse, this`processedBytes, this`uncompressedSize,
        this`currentBuffer
      reads this`taken, currentBuffer, this`connectionIds
    {
      RemainingFrom(0)
    }

    /** The current_* fields describe message m. */
    ghost predicate Publishes(m: Msg)
      reads this, currentMessageBuffer
    {
      && currentMessageBuffer != null
      && currentMessageLen == |m.data| && Holds(currentMessageBuffer[..], currentMessageDataOffset, m.data)
      && currentConnectionId == m.connectionId && currentTimestamp == m.timestamp
    }
  }

  datatype Scanned = Skipped | Published | Threw

  /** chunk_t::decompress into a buffer of the uncompressed size. */
  method DecompressInto(c: Chunk, dst: array<byte>)
    requires dst.Length == |c.content|
    modifies dst
    ensures dst[..] == c.content
  {
    forall i | 0 <= i < dst.Length {
      dst[i] := c.content[i];
    }
  }

  /** The reading of one record in readMessage.  The four element accesses are checked; only the last can fail. */
  method ReadChunkRecord(buffer: array<byte>, p: nat, ghost r: Record) returns (v: Option<RecordView>, next: nat)
    requires SmallRecord(r) && Holds(buffer[..], p, RecordBytes(r))
    ensures v == None <==> r.data == [] && p + |RecordBytes(r)| == buffer.Length
    ensures v.Some? ==> next == p + |RecordBytes(r)|
    ensures v.Some? ==>
      && v.value.headerLen == |Encode(r.fields)| && v.value.header == p + 4
      && v.value.dataLen == |r.data| && v.value.data == p + 8 + |Encode(r.fields)|
  {
    hide Encode, RecordBytes;
    RecordParts(buffer[..], p, r);
    var pos := p;
    var headerLen := ReadU32(buffer[..], pos);
    pos := pos + 4;
    var header := pos;
    pos := pos + headerLen;
    var dataLen := ReadU32(buffer[..], pos);
    pos := pos + 4;
    if pos >= buffer.Length {
      return None, pos;
    }
    v := Some(RecordView(headerLen, header, dataLen, pos));
    next := pos + dataLen;
  }

  /** A record of a chunk seen from its buffer: what is needed to read its header and its data there. */
  lemma RecordInPlace(buffer: seq<byte>, p: nat, r: Record)
    requires GoodRecord(r) && Holds(buffer, p, RecordBytes(r))
    ensures Holds(buffer, p + 4, Encode(r.fields)) && Holds(buffer, p + 8 + |Encode(r.fields)|, r.data)
    ensures p + 4 + |Encode(r.fields)| + (4 + |r.data|) <= |buffer|
    ensures GoodFields(r.fields) && forall i :: 0 <= i < |r.fields| ==> Legible(r.fields[i], 4 + |r.data|)
  {
    hide Encode, RecordBytes, Legible;
    RecordParts(buffer, p, r);
  }

  /** The events at a record, given those after it. */
  ghost function EventsAt(r: Record, ids: set<nat>, later: seq<Event>): seq<Event> {
    if HeaderOf(r).op == MESSAGE_DATA then
      if HeaderOf(r).connectionId in ids then [Deliver(MsgOf(r))] + later else later
    else if HeaderOf(r).op == CONNECTION then later
    else [Throw]
  }

  lemma OtherEvents(r: Record, ids: set<nat>, later: seq<Event>)
    requires HeaderOf(r).op !in {MESSAGE_DATA, CONNECTION}
    ensures EventsAt(r, ids, later) == [Throw]
  {
  }

  /** The first half of the inner loop of readMessage: step over one record and read its header. */
  method NextRecord(w: BagWrapper) returns (v: Option<RecordView>, header: Header, ghost r: Record)
    requires w.Valid() && w.currentBuffer != null && w.processedBytes < w.uncompressedSize
    modifies w`processedBytes, w`taken
    ensures v == None || header.op !in {MESSAGE_DATA, CONNECTION} ==> old(w.Remaining()) == [Throw]
    ensures v.Some? && header.op in {MESSAGE_DATA, CONNECTION} ==>
      && w.Valid() && w.processedBytes > old(w.processedBytes)
      && old(w.Remaining()) == EventsAt(r, w.connectionIds, w.Remaining())
      && Holds(w.currentBuffer[..], v.value.data, r.data) && v.value.dataLen == |r.data|
      && header.op == HeaderOf(r).op && (header.op == MESSAGE_DATA ==> header == HeaderOf(r))
  {
    hide Encode, RecordBytes, HeaderOf, MsgOf, GoodRecord, GoodRecords, GlanceAll, RecordsBytes, Pending, Holds,
      Legible, Sized, SmallRecord, GoodFields, GoodField, NextChunk, EventsAt, PassedPart, Clean, Logs;
    ghost var all, k, p, mem := w.Current(), w.taken, w.processedBytes, w.currentBuffer[..];
    ghost var rs, rest, ids := all[k..], Logs(w.chunksToParse[w.chunkIter + 1..], w.log), w.connectionIds;
    assert Readable(w.chunksToParse[w.openChunk], all);
    SomeRecordLeft(mem, p, all, k);
    r := all[k];
    RecordInPlace(mem, p, r);
    PendingStep(rs, rest, ids);
    header := NO_HEADER;
    var next;
    v, next := ReadChunkRecord(w.currentBuffer, w.processedBytes, r);
    if v.Some? {
      w.processedBytes := next;
      w.taken := k + 1;
      assert all[k + 1..] == rs[1..];
      header := ReadHeader(w.currentBuffer[..], v.value.header, v.value.headerLen, r.fields, 4 + |r.data|);
      HeaderIsGlance(r);
      if header.op in {MESSAGE_DATA, CONNECTION} {
        PassedStep(all, k);
      } else {
        OtherEvents(r, ids, Pending(rs[1..], rest, ids));
      }
    }
  }

  /** One iteration of the inner loop of readMessage. */
  method ScanRecord(w: BagWrapper) returns (s: Scanned)
    requires w.Valid() && w.currentBuffer != null && w.processedBytes < w.uncompressedSize
    modifies w`processedBytes, w`taken, w`currentConnectionId, w`currentMessageBuffer, w`currentMessageDataOffset,
      w`currentMessageLen, w`currentTimestamp
    ensures s != Threw ==> w.Valid() && w.processedBytes > old(w.processedBytes)
    ensures s == Skipped ==> w.Remaining() == old(w.Remaining())
    ensures s == Published ==>
      && old(w.Remaining()) != [] && old(w.Remaining())[0].Deliver?
      && w.Remaining() == old(w.Remaining())[1..] && w.Publishes(old(w.Remaining())[0].msg)
    ensures s == Threw ==> old(w.Remaining()) == [Throw]
  {
    hide HeaderOf, MsgOf, BagWrapper.Valid, BagWrapper.Remaining;
    var v, header, r := NextRecord(w);
    if v == None {
      return Threw;
    }
    MsgOfRecord(r);
    if header.op == MESSAGE_DATA {
      if header.connectionId !in w.connectionIds {
        return Skipped;
      }
      w.currentMessageBuffer := w.currentBuffer;
      w.currentMessageDataOffset := v.value.data;
      w.currentMessageLen := v.value.dataLen;
      w.currentConnectionId := header.connectionId;
      w.currentTimestamp := header.timestamp;
      return Published;
    } else if header.op == CONNECTION {
      return Skipped;
    } else {
      return Threw;
    }
  }

  /** The inner loop of readMessage: records are skipped until one is published or the chunk is finished. */
  method ScanChunk(w: BagWrapper) returns (s: Scanned)
    requires w.Valid() && w.currentBuffer != null
    modifies w`processedBytes, w`taken, w`currentConnectionId, w`currentMessageBuffer, w`currentMessageDataOffset,
      w`currentMessageLen, w`currentTimestamp
    ensures s == Skipped ==> w.Valid() && w.processedBytes >= w.uncompressedSize && w.Remaining() == old(w.Remaining())
    ensures s == Published ==>
      && w.Valid() && old(w.Remaining()) != [] && old(w.Remaining())[0].Deliver?
      && w.Remaining() == old(w.Remaining())[1..] && w.Publishes(old(w.Remaining())[0].msg)
    ensures s == Threw ==> old(w.Remaining()) == [Throw]
  {
    hide BagWrapper.Valid, BagWrapper.Remaining, BagWrapper.Publishes;
    while w.processedBytes < w.uncompressedSize
      invariant w.Valid() && w.Remaining() == old(w.Remaining())
      decreases w.uncompressedSize - w.processedBytes
    {
      s := ScanRecord(w);
      if s != Skipped {
        return;
      }
    }
    s := Skipped;
  }

  lemma HeaderIsGlance(r: Record)
    ensures HeaderOf(r) == GlanceAll(r.fields)
    ensures GoodRecord(r) && HeaderOf(r).op == MESSAGE_DATA ==> forall i :: 0 <= i < |r.fields| ==> Sized(r.fields[i])
  {
    hide GlanceAll, GoodRecord, Sized;
    if GoodRecord(r) && HeaderOf(r).op == MESSAGE_DATA {
      MessageIsSized(r);
    }
  }

  lemma MsgOfRecord(r: Record)
    ensures MsgOf(r) == Msg(HeaderOf(r).connectionId, HeaderOf(r).timestamp, r.data)
  {
  }

  lemma PendingStep(rs: seq<Record>, rest: seq<seq<Record>>, ids: set<nat>)
    requires rs != []
    ensures |rs| == 1 && rs[0].data == [] ==> Pending(rs, rest, ids) == [Throw]
    ensures !(|rs| == 1 && rs[0].data == []) ==>
      Pending(rs, rest, ids) == EventsAt(rs[0], ids, Pending(rs[1..], rest, ids))
  {
  }

  /** Unread bytes mean an unread record; it is the last one iff its bytes end the buffer. */
  lemma SomeRecordLeft(mem: seq<byte>, p: nat, all: seq<Record>, k: nat)
    requires GoodRecords(all) && k <= |all| && p < |mem|
    requires Holds(mem, p, RecordsBytes(all[k..])) && p + |RecordsBytes(all[k..])| == |mem|
    ensures k < |all| && GoodRecord(all[k]) && SmallRecord(all[k]) && |RecordBytes(all[k])| > 0
    ensures Holds(mem, p, RecordBytes(all[k]))
    ensures Holds(mem, p + |RecordBytes(all[k])|, RecordsBytes(all[k + 1..]))
    ensures p + |RecordBytes(all[k])| + |RecordsBytes(all[k + 1..])| == |mem|
    ensures p + |RecordBytes(all[k])| == |mem| <==> |all[k..]| == 1
  {
    hide RecordBytes, GoodRecord;
    NonEmptyRecords(all[k..]);
    RecordsStep(mem, p, all, k);
    GoodIsSmall(all[k]);
    NonEmptyRecords(all[k + 1..]);
  }

  lemma GoodIsSmall(r: Record)
    requires GoodRecord(r)
    ensures SmallRecord(r)
  {
  }

  lemma NonEmptyRecords(rs: seq<Record>)
    ensures RecordsBytes(rs) == [] <==> rs == []
    ensures forall r: Record :: |RecordBytes(r)| > 0
  {
    hide Encode, U32;
  }

  lemma NextChunkStep(cs: seq<Chunk>, i: nat, log: Log, ids: set<nat>)
    requires i < |cs|
    ensures log(cs[i]) == [] ==> NextChunk(Logs(cs[i..], log), ids) == [Throw]
    ensures log(cs[i]) != [] ==> NextChunk(Logs(cs[i..], log), ids) == Pending(log(cs[i]), Logs(cs[i + 1..], log), ids)
    ensures Pending([], Logs(cs[i + 1..], log), ids) == NextChunk(Logs(cs[i + 1..], log), ids)
  {
    assert Logs(cs[i..], log)[1..] == Logs(cs[i + 1..], log);
  }

  /** The head of the outer loop of readMessage: a fresh buffer for the next chunk; taking its address fails when it is
      empty. */
  method OpenChunk(w: BagWrapper) returns (isOpen: bool)
    requires w.Valid() && w.currentBuffer == null && w.chunkIter < |w.chunksToParse|
    modifies w`currentBuffer, w`uncompressedSize, w`openChunk, w`taken
    ensures isOpen ==>
      w.Valid() && w.currentBuffer != null && fresh(w.currentBuffer) && w.Remaining() == old(w.Remaining())
    ensures !isOpen ==> old(w.Remaining()) == [Throw]
  {
    hide Pending, NextChunk, RecordsBytes, GoodRecords;
    var chunk := w.chunksToParse[w.chunkIter];
    NextChunkStep(w.chunksToParse, w.chunkIter, w.log, w.connectionIds);
    assert Readable(chunk, w.log(chunk));
    NonEmptyRecords(w.log(chunk));
    var buffer := new byte[chunk.uncompressedSize];
    if buffer.Length == 0 {
      return false;
    }
    DecompressInto(chunk, buffer);
    w.currentBuffer := buffer;
    w.uncompressedSize := chunk.uncompressedSize;
    w.openChunk, w.taken := w.chunkIter, 0;
    assert w.log(chunk)[0..] == w.log(chunk);
    isOpen := true;
  }

  lemma PassedChunks(cs: seq<Chunk>, o: nat, log: Log, n: nat)
    requires o < |cs| && n <= o + 1 && Clean(Logs(cs[..o], log)) && PassedPart(log(cs[o]), |log(cs[o])|)
    ensures Clean(Logs(cs[..n], log))
  {
    hide HeaderOf;
    forall i | 0 <= i < n
      ensures log(cs[i]) != [] && CleanTail(log(cs[i]))
    {
      if i < o { assert Logs(cs[..o], log)[i] == log(cs[i]); }
    }
  }

  /** The end of the outer loop of readMessage. */
  method CloseChunk(w: BagWrapper)
    requires w.Valid() && w.currentBuffer != null && w.processedBytes >= w.uncompressedSize
    modifies w`chunkIter, w`currentBuffer, w`processedBytes
    ensures w.Valid() && w.Rewound() && w.chunkIter == old(w.chunkIter) + 1 && w.Remaining() == old(w.Remaining())
  {
    hide Pending, NextChunk, RecordsBytes, GoodRecords, Clean, PassedPart;
    NextChunkStep(w.chunksToParse, w.chunkIter, w.log, w.connectionIds);
    NonEmptyRecords(w.Current()[w.taken..]);
    PassedChunks(w.chunksToParse, w.openChunk, w.log, w.chunkIter + 1);
    w.chunkIter := w.chunkIter + 1;
    w.currentBuffer := null;
    w.processedBytes := 0;
  }

  lemma InsideChunks(w: BagWrapper)
    requires w.Valid()
    ensures w.chunkIter <= |w.chunksToParse|
  {
  }

  lemma NothingRemains(w: BagWrapper)
    requires w.Valid() && w.chunkIter == |w.chunksToParse|
    ensures w.Remaining() == [] && w.Rewound()
  {
    assert Logs([], w.log) == [];
  }

  // ---------- The iterator ----------

  /** The wrappers are different objects: each knows its place. */
  ghost predicate Distinct(ws: seq<BagWrapper>) {
    forall i :: 0 <= i < |ws| ==> ws[i].slot == i
  }

  /** A wrapper has published the first of its pending events, or it is at its end and has none. */
  ghost predicate Settled(w: BagWrapper, head: Option<Msg>, stream: seq<Event>)
    reads w, w.currentBuffer, w.currentMessageBuffer
  {
    w.Valid() &&
    match head
    case Some(m) => w.Publishes(m) && stream == [Deliver(m)] + w.Remaining()
    case None => stream == [] && w.Rewound()
  }

  /** A wrapper with all it will bring after begin(). */
  ghost predicate Fresh(w: BagWrapper, stream: seq<Event>)
    reads w, w.currentBuffer
  {
    w.Valid() && stream == w.Restarted()
  }

  lemma SettledMeaning(w: BagWrapper, head: Option<Msg>, stream: seq<Event>)
    requires Settled(w, head, stream)
    ensures w.Valid() && (stream == [] <==> head == None)
    ensures head == None ==> w.Rewound()
    ensures head.Some? ==> w.Publishes(head.value) && stream[0] == Deliver(head.value) && stream[1..] == w.Remaining()
  {
  }

  lemma EndIsSettled(w: BagWrapper)
    requires w.Valid() && w.Rewound()
    ensures Settled(w, None, [])
  {
  }

  lemma IsSettled(w: BagWrapper, m: Msg, stream: seq<Event>)
    requires w.Valid() && stream != []
    requires w.Publishes(m) && stream[0] == Deliver(m) && stream[1..] == w.Remaining()
    ensures Settled(w, Some(m), stream)
  {
  }

  /** What a wrapper brings from its first chunk on. */
  ghost function WholeStream(w: BagWrapper): seq<Event>
    reads w`chunksToParse, w`connectionIds
  {
    NextChunk(Logs(w.chunksToParse, w.log), w.connectionIds)
  }

  ghost function WholeStreams(ws: seq<BagWrapper>): (r: seq<seq<Event>>)
    reads ws`chunksToParse, ws`connectionIds
    ensures |r| == |ws| && forall i :: 0 <= i < |ws| ==> r[i] == WholeStream(ws[i])
  {
    if ws == [] then [] else [WholeStream(ws[0])] + WholeStreams(ws[1..])
  }

  /** Without an open chunk, as getMessages and a finished loop leave a wrapper, begin() starts from the first chunk. */
  lemma RewoundIsFresh(w: BagWrapper)
    requires w.Valid() && w.Rewound()
    ensures Fresh(w, WholeStream(w))
  {
    hide NextChunk, AllReadable;
    assert w.chunksToParse[0..] == w.chunksToParse;
  }

  /** chunk_iter = chunks_to_parse.begin(): all that begin() resets. */
  method Rewind(w: BagWrapper)
    requires w.Valid()
    modifies w`chunkIter
    ensures w.Valid() && w.chunkIter == 0 && w.Remaining() == old(w.Restarted())
  {
    hide Pending, NextChunk, AllReadable;
    w.chunkIter := 0;
  }

  /** A delivered message of a bag: its connection's topic and checksum, its time, and its bytes. */
  ghost predicate Delivers(r: RosMessage, m: Msg, bag: Bag)
    reads r, r.rawBuffer, r.msgDef, bag`connections, bag`topicConnectionMap
  {
    && r.Valid() && m.connectionId < |bag.connections|
    && r.topic == bag.connections[m.connectionId].topic && r.md5 == bag.connections[m.connectionId].data.md5sum
    && r.timestamp == m.timestamp && r.InBounds() && r.RawData() == m.data
    && bag.TopicDefinition(r.topic) == Some((r.msgDef.root, r.msgDef.definitions))
  }

  /** The queue holds each key once and nothing else. */
  predicate QueueIs<T(==)>(q: seq<T>, keys: set<T>) {
    multiset(q) == multiset(keys)
  }

  /** q' is q with w added somewhere. */
  predicate Added<T(==)>(q: seq<T>, q': seq<T>, w: T) {
    multiset(q') == multiset(q) + multiset{w}
  }

  lemma QueueMembers<T>(q: seq<T>, keys: set<T>, w: T)
    requires QueueIs(q, keys)
    ensures w in q <==> w in keys
  {
    assert w in q <==> w in multiset(q);
  }

  lemma PopKeys<T>(q: seq<T>, q': seq<T>, keys: set<T>, w: T)
    requires QueueIs(q, keys) && Added(q', q, w)
    ensures w in keys && w !in q' && QueueIs(q', keys - {w})
    ensures forall v :: v in q' ==> v in q
  {
    assert multiset(keys)[w] == 1;
    assert multiset(q') == multiset(keys) - multiset{w};
    forall v | v in q'
      ensures v in q
    {
      assert v in multiset(q') && v in multiset(q);
    }
    assert w !in multiset(q');
  }

  lemma PushKeys<T>(q: seq<T>, q': seq<T>, keys: set<T>, w: T)
    requires QueueIs(q, keys) && Added(q, q', w) && w !in keys
    ensures QueueIs(q', keys + {w})
    ensures forall v :: v in q' ==> v in q || v == w
  {
    forall v | v in q'
      ensures v in q || v == w
    {
      assert v in multiset(q');
    }
  }

  /** Only the entry of w may differ. */
  ghost predicate SameElsewhere<T(!new)>(h: map<BagWrapper, T>, h': map<BagWrapper, T>, w: BagWrapper) {
    (forall v :: v in h && v != w ==> v in h' && h'[v] == h[v]) && forall v :: v in h' && v != w ==> v in h
  }

  /** The buffers that wrappers refer to. */
  ghost function Buffers(ws: seq<BagWrapper>): set<array?<byte>>
    reads ws
  {
    (set i | 0 <= i < |ws| :: ws[i].currentBuffer) + (set i | 0 <= i < |ws| :: ws[i].currentMessageBuffer)
  }

  class Iterator {
    const bagWrappers: seq<BagWrapper>
    var msgQueue: seq<BagWrapper>
    ghost var heads: map<BagWrapper, Msg>

    /** The end iterator of a view: nothing queued. */
    constructor (bagWrappers: seq<BagWrapper>)
      ensures this.bagWrappers == bagWrappers && msgQueue == [] && heads == map[]
    {
      this.bagWrappers, msgQueue, heads := bagWrappers, [], map[];
    }

    /** The top of the queue: no queued wrapper has an earlier message. */
    ghost predicate TopIsEarliest()
      reads this`msgQueue, msgQueue`currentTimestamp
    {
      forall i :: 0 <= i < |msgQueue| ==> !Later(msgQueue[0].currentTimestamp, msgQueue[i].currentTimestamp)
    }

    lemma EmptyTop()
      requires msgQueue == [] && heads == map[]
      ensures TopIsEarliest() && QueueIs(msgQueue, heads.Keys)
    {
    }

    /** priority_queue::push.  Among equal timestamps the library may put either on top. */
    method Push(w: BagWrapper)
      requires TopIsEarliest()
      modifies this`msgQueue
      ensures TopIsEarliest()
      ensures Added(old(msgQueue), msgQueue, w)
    {
      if
      case msgQueue == [] || !Later(w.currentTimestamp, msgQueue[0].currentTimestamp) =>
        EarlierThanTop(w);
        msgQueue := [w] + msgQueue;
      case msgQueue != [] && !Later(msgQueue[0].currentTimestamp, w.currentTimestamp) =>
        msgQueue := msgQueue + [w];
    }

    lemma EarlierThanTop(w: BagWrapper)
      requires TopIsEarliest()
      requires msgQueue != [] ==> !Later(w.currentTimestamp, msgQueue[0].currentTimestamp)
      ensures forall i :: 0 <= i < |msgQueue| ==> !Later(w.currentTimestamp, msgQueue[i].currentTimestamp)
    {
      forall i | 0 <= i < |msgQueue|
        ensures !Later(w.currentTimestamp, msgQueue[i].currentTimestamp)
      {
        QueueOrder(w.currentTimestamp, msgQueue[0].currentTimestamp, msgQueue[i].currentTimestamp);
      }
    }

    /** priority_queue::pop.  Any earliest one of the rest may come to the top. */
    method Pop()
      requires msgQueue != []
      modifies this`msgQueue
      ensures TopIsEarliest()
      ensures Added(msgQueue, old(msgQueue), old(msgQueue)[0])
    {
      var rest := msgQueue[1..];
      assert msgQueue == [msgQueue[0]] + rest;
      if rest == [] {
        msgQueue := [];
      } else {
        var i := FindEarliest(rest);
        assert rest == rest[..i] + [rest[i]] + rest[i + 1..];
        msgQueue := [rest[i]] + (rest[..i] + rest[i + 1..]);
      }
    }

    method FindEarliest(rest: seq<BagWrapper>) returns (k: nat)
      requires rest != []
      ensures k < |rest| && forall i :: 0 <= i < |rest| ==> !Later(rest[k].currentTimestamp, rest[i].currentTimestamp)
    {
      k := 0;
      for n := 1 to |rest|
        invariant k < n && forall i :: 0 <= i < n ==> !Later(rest[k].currentTimestamp, rest[i].currentTimestamp)
      {
        if Later(rest[k].currentTimestamp, rest[n].currentTimestamp) {
          forall i | 0 <= i < n
            ensures !Later(rest[n].currentTimestamp, rest[i].currentTimestamp)
          {
            QueueOrder(rest[n].currentTimestamp, rest[k].currentTimestamp, rest[i].currentTimestamp);
          }
          k := n;
        }
      }
    }

    /** View::iterator::readMessage: scan to the next selected message of one bag and queue the wrapper with it.  It
        fails, as an exception would, exactly when the next event of the scan is a throw. */
    method ReadMessage(w: BagWrapper) returns (ok: bool)
      requires w.Valid() && w !in msgQueue && TopIsEarliest()
      modifies this`msgQueue, w
      ensures w.chunksToParse == old(w.chunksToParse) && w.connectionIds == old(w.connectionIds)
      ensures ok <==> old(w.Remaining()) == [] || old(w.Remaining())[0].Deliver?
      ensures ok ==> w.Valid() && TopIsEarliest()
      ensures ok && old(w.Remaining()) == [] ==> msgQueue == old(msgQueue) && w.Remaining() == [] && w.Rewound()
      ensures ok && old(w.Remaining()) != [] ==>
        && w.Remaining() == old(w.Remaining())[1..] && w.Publishes(old(w.Remaining())[0].msg)
        && Added(old(msgQueue), msgQueue, w)
    {
      hide BagWrapper.Valid, BagWrapper.Remaining, BagWrapper.Rewound, BagWrapper.Publishes, TopIsEarliest, Added;
      InsideChunks(w);
      while w.chunkIter != |w.chunksToParse|
        invariant w.Valid() && w.Remaining() == old(w.Remaining()) && w.chunkIter <= |w.chunksToParse|
        invariant w.chunksToParse == old(w.chunksToParse) && w.connectionIds == old(w.connectionIds)
        invariant msgQueue == old(msgQueue) && TopIsEarliest()
        decreases |w.chunksToParse| - w.chunkIter
      {
        if w.currentBuffer == null {
          var isOpen := OpenChunk(w);
          if !isOpen {
            return false;
          }
        }
        var s := ScanChunk(w);
        if s == Published {
          Push(w);
          return true;
        }
        if s == Threw {
          return false;
        }
        CloseChunk(w);
        InsideChunks(w);
      }
      NothingRemains(w);
      ok := true;
    }

    // ---------- Whole runs ----------

    ghost function HeadOf(w: BagWrapper): Option<Msg>
      reads this`heads
    {
      if w in heads then Some(heads[w]) else None
    }

    /** The queue holds exactly the wrappers with a pending message, each once, the earliest on top; streams are the
        events still to come. */
    ghost predicate Sound(streams: seq<seq<Event>>)
      reads this, bagWrappers, msgQueue, Buffers(bagWrappers)
    {
      && Distinct(bagWrappers) && |streams| == |bagWrappers|
      && (forall i :: 0 <= i < |bagWrappers| ==> Settled(bagWrappers[i], HeadOf(bagWrappers[i]), streams[i]))
      && (forall w :: w in heads ==> w in bagWrappers)
      && (forall w :: w in msgQueue ==> w in bagWrappers)
      && QueueIs(msgQueue, heads.Keys)
      && TopIsEarliest()
    }

    /** readMessage together with the ghost record of the message it publishes. */
    method ReadHead(w: BagWrapper, ghost stream: seq<Event>) returns (ok: bool)
      requires w.Valid() && w.Remaining() == stream
      requires w !in heads && QueueIs(msgQueue, heads.Keys) && TopIsEarliest()
      modifies this`msgQueue, this`heads, w
      ensures ok <==> Deliverable(stream)
      ensures WholeStream(w) == old(WholeStream(w))
      ensures ok ==>
        && Settled(w, HeadOf(w), stream) && SameElsewhere(old(heads), heads, w)
        && QueueIs(msgQueue, heads.Keys) && TopIsEarliest()
        && forall v :: v in msgQueue ==> v in old(msgQueue) || v == w
    {
      hide NextChunk, Pending, BagWrapper.Valid, BagWrapper.Publishes, BagWrapper.Remaining, BagWrapper.Rewound,
        TopIsEarliest, Later,
        Settled, Logs, AllReadable, Distinct, QueueIs, Added;
      ghost var queue, keys := msgQueue, heads.Keys;
      QueueMembers(queue, keys, w);
      ok := ReadMessage(w);
      if ok {
        if stream == [] {
          EndIsSettled(w);
        } else {
          PushKeys(queue, msgQueue, keys, w);
          heads := heads[w := stream[0].msg];
          assert heads.Keys == keys + {w};
          IsSettled(w, stream[0].msg, stream);
        }
      }
    }

    /** The position is reset, and the first message is read. */
    method StartWrapper(w: BagWrapper, ghost stream: seq<Event>) returns (ok: bool)
      requires Fresh(w, stream)
      requires w !in heads && QueueIs(msgQueue, heads.Keys) && TopIsEarliest()
      modifies this`msgQueue, this`heads, w
      ensures ok <==> Deliverable(stream)
      ensures WholeStream(w) == old(WholeStream(w))
      ensures ok ==>
        && Settled(w, HeadOf(w), stream) && SameElsewhere(old(heads), heads, w)
        && QueueIs(msgQueue, heads.Keys) && TopIsEarliest()
        && forall v :: v in msgQueue ==> v in old(msgQueue) || v == w
    {
      hide BagWrapper.Valid, BagWrapper.Remaining, BagWrapper.Restarted, Settled, QueueIs, TopIsEarliest, WholeStream,
        Deliverable;
      Rewind(w);
      ok := ReadHead(w, stream);
    }

    /** The first n wrappers have started, the others are as they were. */
    ghost predicate Started(n: nat, streams: seq<seq<Event>>)
      reads *
    {
      && n <= |bagWrappers| == |streams| && Distinct(bagWrappers)
      && (forall j :: 0 <= j < n ==> Settled(bagWrappers[j], HeadOf(bagWrappers[j]), streams[j]))
      && (forall j :: n <= j < |bagWrappers| ==> Fresh(bagWrappers[j], streams[j]))
      && (forall v :: v in heads ==> v in bagWrappers && v.slot < n)
      && (forall v :: v in msgQueue ==> v in bagWrappers)
      && QueueIs(msgQueue, heads.Keys) && TopIsEarliest()
    }

    /** One iteration of the loop of the begin iterator. */
    method StartOne(i: nat, ghost streams: seq<seq<Event>>) returns (ok: bool)
      requires i < |bagWrappers| && Started(i, streams)
      modifies this`msgQueue, this`heads, bagWrappers[i]
      ensures ok <==> Deliverable(streams[i])
      ensures ok ==> Started(i + 1, streams)
      ensures WholeStreams(bagWrappers) == old(WholeStreams(bagWrappers))
    {
      hide QueueIs, Settled, TopIsEarliest, Fresh, Deliverable, BagWrapper.Valid, BagWrapper.Remaining,
        BagWrapper.Restarted, BagWrapper.Rewound, WholeStream, Later;
      var w := bagWrappers[i];
      assert Fresh(w, streams[i]);
      ok := StartWrapper(w, streams[i]);
      if ok {
        forall j | 0 <= j < i
          ensures Settled(bagWrappers[j], HeadOf(bagWrappers[j]), streams[j])
        {
          ghost var v, h := bagWrappers[j], old(HeadOf(bagWrappers[j]));
          assert old(Settled(v, h, streams[j])) && v != w && unchanged(v);
          assert v in old(heads) <==> v in heads;
          assert h == HeadOf(v);
        }
        forall j | i < j < |bagWrappers|
          ensures Fresh(bagWrappers[j], streams[j])
        {
          assert old(Fresh(bagWrappers[j], streams[j])) && bagWrappers[j] != w && unchanged(bagWrappers[j]);
        }
        assert Settled(bagWrappers[i], HeadOf(bagWrappers[i]), streams[i]);
        assert w in bagWrappers && w.slot == i;
        forall v | v in heads
          ensures v in bagWrappers && v.slot < i + 1
        {
          assert v == w || v in old(heads);
        }
      }
    }

    /** Every wrapper will bring exactly the events of its stream after begin(). */
    ghost predicate Promises(es: EventStreams)
      reads bagWrappers, Buffers(bagWrappers)
    {
      && Distinct(bagWrappers) && |es| == |bagWrappers|
      && forall i :: 0 <= i < |es| ==> Fresh(bagWrappers[i], es[i])
    }

    /** The begin iterator: a first message from every bag.  It fails exactly when some first event is a throw. */
    method Begin(ghost es: EventStreams) returns (ok: bool)
      requires Promises(es) && msgQueue == [] && heads == map[]
      modifies this`msgQueue, this`heads, bagWrappers
      ensures ok <==> Quiet(es)
      ensures ok ==> Sound(es)
      ensures WholeStreams(bagWrappers) == old(WholeStreams(bagWrappers))
    {
      hide QueueIs, Settled, TopIsEarliest, Deliverable, Fresh, WholeStream, WholeStreams, Started, Sound;
      NoneStarted(es);
      for i := 0 to |bagWrappers|
        invariant Started(i, es) && forall j :: 0 <= j < i ==> Deliverable(es[j])
        invariant WholeStreams(bagWrappers) == old(WholeStreams(bagWrappers))
      {
        var started := StartOne(i, es);
        if !started {
          return false;
        }
      }
      AllStarted(es);
      ok := true;
    }

    lemma NoneStarted(es: EventStreams)
      requires Promises(es) && msgQueue == [] && heads == map[]
      ensures Started(0, es)
    {
      hide QueueIs, TopIsEarliest, Fresh;
      EmptyTop();
    }

    lemma AllStarted(es: EventStreams)
      requires Started(|bagWrappers|, es)
      ensures Sound(es)
    {
      hide QueueIs, TopIsEarliest, Settled;
    }

    /** it == end() is a comparison of queue sizes; it holds exactly when nothing is left. */
    lemma AtEndIffNothingLeft(streams: seq<seq<Event>>)
      requires Sound(streams)
      ensures |msgQueue| == 0 <==> forall i :: 0 <= i < |streams| ==> streams[i] == []
    {
      hide Pending, NextChunk;
      if |msgQueue| == 0 {
        forall i | 0 <= i < |streams|
          ensures streams[i] == []
        {
          assert Settled(bagWrappers[i], HeadOf(bagWrappers[i]), streams[i]);
          QueueMembers(msgQueue, heads.Keys, bagWrappers[i]);
        }
      } else {
        var w := msgQueue[0];
        assert w in msgQueue && w in bagWrappers;
        var i :| 0 <= i < |bagWrappers| && bagWrappers[i] == w;
        assert Settled(bagWrappers[i], HeadOf(bagWrappers[i]), streams[i]);
        QueueMembers(msgQueue, heads.Keys, w);
      }
    }

    /** The top of the queue is a wrapper whose pending message no other pending message precedes. */
    lemma TopIsTakeable(streams: seq<seq<Event>>) returns (k: nat)
      requires Sound(streams) && msgQueue != []
      ensures k < |bagWrappers| && bagWrappers[k] == msgQueue[0]
      ensures streams[k] != [] && streams[k][0].Deliver? && msgQueue[0].Publishes(streams[k][0].msg)
      ensures forall j :: 0 <= j < |streams| && streams[j] != [] ==>
        streams[j][0].Deliver? && !Later(streams[k][0].msg.timestamp, streams[j][0].msg.timestamp)
    {
      hide Pending, NextChunk;
      var w := msgQueue[0];
      assert w in msgQueue && w in bagWrappers;
      k :| 0 <= k < |bagWrappers| && bagWrappers[k] == w;
      assert Settled(bagWrappers[k], HeadOf(bagWrappers[k]), streams[k]);
      QueueMembers(msgQueue, heads.Keys, w);
      forall j | 0 <= j < |streams| && streams[j] != []
        ensures streams[j][0].Deliver? && !Later(streams[k][0].msg.timestamp, streams[j][0].msg.timestamp)
      {
        var v := bagWrappers[j];
        assert Settled(v, HeadOf(v), streams[j]);
        QueueMembers(msgQueue, heads.Keys, v);
        var i :| 0 <= i < |msgQueue| && msgQueue[i] == v;
      }
    }

    /** Sound but for wrapper k, which is not queued. */
    ghost predicate SoundBut(k: nat, streams: seq<seq<Event>>)
      reads *
    {
      && k < |bagWrappers| == |streams| && Distinct(bagWrappers)
      && (forall j :: 0 <= j < |bagWrappers| && j != k ==> Settled(bagWrappers[j], HeadOf(bagWrappers[j]), streams[j]))
      && (forall v :: v in heads ==> v in bagWrappers && v.slot != k)
      && (forall v :: v in msgQueue ==> v in bagWrappers)
      && QueueIs(msgQueue, heads.Keys) && TopIsEarliest()
    }

    /** The first half of operator++: the top is taken off the queue. */
    method TakeTop(ghost streams: seq<seq<Event>>, ghost k: nat) returns (w: BagWrapper)
      requires Sound(streams) && msgQueue != []
      requires k < |bagWrappers| && bagWrappers[k] == msgQueue[0]
      modifies this`msgQueue, this`heads
      ensures w == bagWrappers[k] && SoundBut(k, streams)
      ensures w.Valid() && streams[k] != [] && w.Remaining() == streams[k][1..]
    {
      hide Settled, TopIsEarliest, BagWrapper.Valid, BagWrapper.Remaining, BagWrapper.Rewound, BagWrapper.Publishes,
        Later, QueueIs, Added;
      w := msgQueue[0];
      ghost var queue, keys := msgQueue, heads.Keys;
      QueueMembers(queue, keys, w);
      assert Settled(w, HeadOf(w), streams[k]);
      SettledMeaning(w, HeadOf(w), streams[k]);
      Pop();
      PopKeys(queue, msgQueue, keys, w);
      heads := heads - {w};
      assert heads.Keys == keys - {w};
      forall j | 0 <= j < |bagWrappers| && j != k
        ensures Settled(bagWrappers[j], HeadOf(bagWrappers[j]), streams[j])
      {
        ghost var v, h := bagWrappers[j], old(HeadOf(bagWrappers[j]));
        assert old(Settled(v, h, streams[j])) && v != w;
        assert h == HeadOf(v);
      }
    }

    /** The second half of operator++: the wrapper scans on. */
    method Resume(w: BagWrapper, ghost streams: seq<seq<Event>>, ghost k: nat, ghost stream: seq<Event>)
      returns (ok: bool)
      requires SoundBut(k, streams) && w == bagWrappers[k]
      requires w.Valid() && w.Remaining() == stream
      modifies this`msgQueue, this`heads, w
      ensures ok <==> Deliverable(stream)
      ensures ok ==> Sound(streams[k := stream])
      ensures WholeStreams(bagWrappers) == old(WholeStreams(bagWrappers))
    {
      hide QueueIs, Settled, TopIsEarliest, Deliverable, BagWrapper.Valid, BagWrapper.Remaining, BagWrapper.Rewound,
        Later;
      ok := ReadHead(w, stream);
      if ok {
        forall j | 0 <= j < |bagWrappers| && j != k
          ensures Settled(bagWrappers[j], HeadOf(bagWrappers[j]), streams[j])
        {
          ghost var v, h := bagWrappers[j], old(HeadOf(bagWrappers[j]));
          assert old(Settled(v, h, streams[j])) && v != w && unchanged(v);
          assert v in old(heads) <==> v in heads;
          assert h == HeadOf(v);
        }
      }
    }

    /** View::iterator::operator++: the top is taken off, and its wrapper scans on.  It fails exactly when the next
        event of that wrapper is a throw. */
    method Advance(ghost streams: seq<seq<Event>>, ghost k: nat) returns (ok: bool)
      requires Sound(streams) && msgQueue != []
      requires k < |bagWrappers| && bagWrappers[k] == msgQueue[0] && streams[k] != []
      modifies this`msgQueue, this`heads, bagWrappers
      ensures Quiet(streams) ==> (ok <==> Quiet(TakeEvent(streams, k)))
      ensures ok ==> Sound(TakeEvent(streams, k))
      ensures WholeStreams(bagWrappers) == old(WholeStreams(bagWrappers))
    {
      hide QueueIs, Settled, TopIsEarliest, BagWrapper.Valid, BagWrapper.Remaining, Deliverable, Quiet;
      if Quiet(streams) {
        QuietStep(streams, k);
      }
      var w := TakeTop(streams, k);
      ok := Resume(w, streams, k, streams[k][1..]);
    }

    // ---------- A whole loop over the messages ----------

    /** View::iterator::operator*: the message of the top wrapper, as a slice of its buffer.  It fails iff the topic of
        its connection has no definition. */
    method Deref(ghost m: Msg) returns (r: Result<RosMessage, BagError>)
      requires msgQueue != [] && msgQueue[0].Publishes(m) && m.connectionId < |msgQueue[0].bag.connections|
      requires msgQueue[0].bag.Linked() && msgQueue[0].bag.Memo()
      modifies msgQueue[0].bag`messageSchemata
      ensures msgQueue[0].bag.Memo()
      ensures r.Ok? <==> msgQueue[0].bag.TopicDefinition(msgQueue[0].bag.connections[m.connectionId].topic) != None
      ensures r.Ok? ==> fresh(r.value) && Delivers(r.value, m, msgQueue[0].bag)
    {
      hide Bag.Linked, Bag.Memo, Bag.DefinitionOf;
      var w := msgQueue[0];
      var connection := w.bag.connections[w.currentConnectionId];
      var def := w.bag.MsgDefForTopic(connection.topic);
      if def.Err? {
        return Err(def.error);
      }
      var message := new RosMessage(connection.topic, w.currentTimestamp, connection.data.md5sum,
        w.currentMessageBuffer, w.currentMessageDataOffset, w.currentMessageLen, def.value);
      r := Ok(message);
    }

    /** Every bag can give definitions. */
    ghost predicate BagsReady()
      reads *
    {
      forall i :: 0 <= i < |bagWrappers| ==> BagReady(bagWrappers[i].bag)
    }

    /** Every connection number in a stream is in the table of its bag. */
    ghost predicate Known(ms: Streams)
      reads BagSet()`connections
    {
      |ms| == |bagWrappers| && forall i, j :: 0 <= i < |ms| && 0 <= j < |ms[i]| ==>
        ms[i][j].connectionId < |bagWrappers[i].bag.connections|
    }

    ghost function BagSet(): set<Bag> {
      set i | 0 <= i < |bagWrappers| :: bagWrappers[i].bag
    }

    /** operator* leaves the iterator alone and the bags ready. */
    method DerefTop(ghost streams: seq<seq<Event>>, ghost m: Msg) returns (r: Result<RosMessage, BagError>)
      requires Sound(streams) && BagsReady()
      requires msgQueue != [] && msgQueue[0].Publishes(m) && m.connectionId < |msgQueue[0].bag.connections|
      modifies msgQueue[0].bag`messageSchemata
      ensures Sound(streams) && BagsReady()
      ensures r.Ok? <==> msgQueue[0].bag.TopicDefinition(msgQueue[0].bag.connections[m.connectionId].topic) != None
      ensures r.Ok? ==> fresh(r.value) && Delivers(r.value, m, msgQueue[0].bag)
    {
      hide QueueIs, Settled, TopIsEarliest, Delivers, BagWrapper.Publishes, Later, Buffers, BagReady;
      ghost var w := msgQueue[0];
      assert w in bagWrappers;
      assert BagReady(bagWrappers[w.slot].bag);
      BagReadyMeaning(w.bag);
      r := Deref(m);
      BagIsReady(w.bag);
      forall j | 0 <= j < |bagWrappers|
        ensures Settled(bagWrappers[j], HeadOf(bagWrappers[j]), streams[j])
      {
        assert old(Settled(bagWrappers[j], HeadOf(bagWrappers[j]), streams[j]));
      }
      forall j | 0 <= j < |bagWrappers|
        ensures BagReady(bagWrappers[j].bag)
      {
        if bagWrappers[j].bag != w.bag {
          assert old(BagReady(bagWrappers[j].bag));
        }
      }
    }

    /** A sound iterator is not about to throw, and its top is a delivery the merge may make. */
    lemma TopCanBeTaken(cur: EventStreams) returns (k: nat)
      requires Sound(cur) && msgQueue != []
      ensures Quiet(cur) && CanTake(Deliveries(cur), k) && k < |bagWrappers| && bagWrappers[k] == msgQueue[0]
      ensures k < |cur| && cur[k] != [] && cur[k][0] == Deliver(Deliveries(cur)[k][0])
      ensures msgQueue[0].Publishes(Deliveries(cur)[k][0])
    {
      hide BagWrapper.Publishes, BagWrapper.Valid, BagWrapper.Remaining, BagWrapper.Rewound, QueueIs, TopIsEarliest,
        Later;
      SoundIsQuiet(cur);
      k := TopIsTakeable(cur);
      var ms: Streams := Deliveries(cur);
      forall j | 0 <= j < |ms| && ms[j] != []
        ensures !Later(ms[k][0].timestamp, ms[j][0].timestamp)
      {
        assert cur[j] != [] && cur[j][0] == Deliver(ms[j][0]);
      }
    }

    lemma SoundIsQuiet(cur: EventStreams)
      requires Sound(cur)
      ensures Quiet(cur)
    {
      hide BagWrapper.Publishes, BagWrapper.Valid, BagWrapper.Remaining, BagWrapper.Rewound, QueueIs, TopIsEarliest;
      forall i | 0 <= i < |cur|
        ensures Deliverable(cur[i])
      {
        assert Settled(bagWrappers[i], HeadOf(bagWrappers[i]), cur[i]);
      }
    }

    /** One round of the loop: operator* and then operator++.  operator* fails iff the topic has no definition, and
        operator++ fails iff the next event of the stream is a throw. */
    method Round(ghost cur: EventStreams) returns (r: Result<RosMessage, BagError>, ok: bool, ghost k: nat)
      requires Sound(cur) && BagsReady() && Known(Deliveries(cur)) && msgQueue != []
      modifies this`msgQueue, this`heads, bagWrappers, BagSet()`messageSchemata
      ensures Quiet(cur) && CanTake(Deliveries(cur), k) && k < |bagWrappers| && k < |cur| && cur[k] != []
      ensures r.Err? ==> Undefined(Deliveries(cur), k)
      ensures r.Ok? ==> fresh(r.value) && Delivers(r.value, Deliveries(cur)[k][0], bagWrappers[k].bag)
      ensures r.Ok? ==> BagsReady() && (ok <==> Quiet(TakeEvent(cur, k)))
      ensures r.Ok? && ok ==> Sound(TakeEvent(cur, k))
      ensures WholeStreams(bagWrappers) == old(WholeStreams(bagWrappers))
    {
      hide Sound, Delivers, BagReady, Settled, Later, TopIsEarliest, BagWrapper.Publishes, BeforeThrow, Buffers,
        WholeStreams, QueueIs, CanTake, Deliveries, Quiet, TakeEvent, Known, Bag.TopicDefinition;
      k := TopCanBeTaken(cur);
      KnownHead(Deliveries(cur), k);
      r := DerefTop(cur, Deliveries(cur)[k][0]);
      ok := false;
      if r.Ok? {
        ok := Advance(cur, k);
      }
    }

    /** The topic of the next message of stream k has no definition. */
    ghost predicate Undefined(t: Streams, k: nat)
      requires CanTake(t, k)
      reads *
    {
      k < |bagWrappers| && t[k][0].connectionId < |bagWrappers[k].bag.connections| &&
      bagWrappers[k].bag.TopicDefinition(bagWrappers[k].bag.connections[t[k][0].connectionId].topic) == None
    }

    /** The messages delivered so far are the output of the picks, each still as it was delivered. */
    ghost predicate DeliveredSoFar(out: seq<RosMessage>, ms: Streams, picks: seq<nat>)
      reads *
    {
      && |out| == |picks| == |Output(ms, picks)|
      && forall i :: 0 <= i < |out| ==>
        picks[i] < |bagWrappers| && Delivers(out[i], Output(ms, picks)[i], bagWrappers[picks[i]].bag)
    }

    /** A round does not touch what was delivered before. */
    method RoundKeeping(ghost cur: EventStreams, ghost out: seq<RosMessage>, ghost ms: Streams, ghost picks: seq<nat>)
      returns (r: Result<RosMessage, BagError>, ok: bool, ghost k: nat)
      requires Sound(cur) && BagsReady() && Known(Deliveries(cur)) && msgQueue != []
      requires DeliveredSoFar(out, ms, picks)
      modifies this`msgQueue, this`heads, bagWrappers, BagSet()`messageSchemata
      ensures Quiet(cur) && CanTake(Deliveries(cur), k) && k < |bagWrappers| && k < |cur| && cur[k] != []
      ensures r.Err? ==> Undefined(Deliveries(cur), k)
      ensures r.Ok? ==> fresh(r.value) && Delivers(r.value, Deliveries(cur)[k][0], bagWrappers[k].bag)
      ensures r.Ok? ==> BagsReady() && Known(Deliveries(TakeEvent(cur, k))) && (ok <==> Quiet(TakeEvent(cur, k)))
      ensures r.Ok? && ok ==> Sound(TakeEvent(cur, k))
      ensures DeliveredSoFar(out, ms, picks)
      ensures WholeStreams(bagWrappers) == old(WholeStreams(bagWrappers))
    {
      hide Sound, Delivers, BagReady, Buffers, CanTake, Output, Deliveries, Known, Undefined, WholeStreams, QueueIs,
        Quiet, TakeEvent;
      r, ok, k := Round(cur);
      KnownTake(cur, k);
      forall i | 0 <= i < |out|
        ensures Delivers(out[i], Output(ms, picks)[i], bagWrappers[picks[i]].bag)
      {
        assert old(Delivers(out[i], Output(ms, picks)[i], bagWrappers[picks[i]].bag));
      }
    }

    lemma KnownHead(ms: Streams, k: nat)
      requires Known(ms) && CanTake(ms, k)
      ensures k < |bagWrappers| && k < |ms| && ms[k] != [] && ms[k][0].connectionId < |bagWrappers[k].bag.connections|
    {
    }

    lemma KnownTake(cur: EventStreams, k: nat)
      requires Known(Deliveries(cur)) && CanTake(Deliveries(cur), k) && k < |cur| && cur[k] != []
      ensures Known(Deliveries(TakeEvent(cur, k)))
    {
      hide Later, Deliveries;
      HeadIsDelivery(cur, k);
      var ms: Streams := Deliveries(cur);
      var s: Streams := Take(ms, k);
      forall i: nat, j: nat | i < |s| && j < |s[i]|
        ensures s[i][j].connectionId < |bagWrappers[i].bag.connections|
      {
        assert s[i][j] == if i == k then ms[i][j + 1] else ms[i][j];
      }
    }

    lemma OneMoreDelivered(out: seq<RosMessage>, es: EventStreams, picks: seq<nat>, cur: EventStreams, r: RosMessage,
          k: nat)
      requires DeliveredSoFar(out, Deliveries(es), picks) && Reaches(es, picks, cur)
      requires Quiet(cur) && CanTake(Deliveries(cur), k) && k < |bagWrappers| && k < |cur| && cur[k] != []
      requires Delivers(r, Deliveries(cur)[k][0], bagWrappers[k].bag)
      ensures DeliveredSoFar(out + [r], Deliveries(es), picks + [k]) && Reaches(es, picks + [k], TakeEvent(cur, k))
      ensures Left(Deliveries(TakeEvent(cur, k))) < Left(Deliveries(cur))
    {
      hide Delivers, CanTake, Left, Deliveries, Reaches, Run, Output, Quiet;
      ReachesIsRun(es, picks, cur);
      ReachesExtends(es, picks, cur, k);
      HeadIsDelivery(cur, k);
      RunExtends(Deliveries(es), picks, Deliveries(cur), k);
      HeadIsThere(Deliveries(cur), k);
      LeftDecreases(Deliveries(cur), k);
    }

    lemma AtEnd(cur: EventStreams)
      requires Sound(cur) && msgQueue == []
      ensures Finished(cur) && Promises(WholeStreams(bagWrappers))
    {
      AtEndIffNothingLeft(cur);
      hide BagWrapper.Valid, BagWrapper.Rewound, BagWrapper.Publishes, BagWrapper.Remaining, BagWrapper.Restarted,
        Fresh, WholeStream;
      forall i | 0 <= i < |bagWrappers|
        ensures Fresh(bagWrappers[i], WholeStreams(bagWrappers)[i])
      {
        assert Settled(bagWrappers[i], HeadOf(bagWrappers[i]), cur[i]);
        RewoundIsFresh(bagWrappers[i]);
      }
    }

    /** for (const auto &message : view): begin(), then operator* and operator++ until end(). Whatever the streams hold,
        the new messages delivered are a merge of the streams up to their throws.  They are looked at after the whole
        loop: however far the iterator has gone on, each still has its bytes.  The loop ends with nothing left, or when
        a stream is about to throw, or at a message whose topic has no definition.  When it has ended with nothing left,
        another one starts from the first chunks. */
    method ForEach(ghost es: EventStreams)
      returns (out: seq<RosMessage>, stop: Stop, ghost picks: seq<nat>, ghost left: EventStreams)
      requires msgQueue == [] && heads == map[]
      requires Promises(es) && BagsReady() && Known(Deliveries(es))
      modifies this`msgQueue, this`heads, bagWrappers, BagSet()`messageSchemata
      ensures fresh(out) && DeliveredSoFar(out, Deliveries(es), picks) && Reaches(es, picks, left)
      ensures stop.Ended? ==> Finished(left) && msgQueue == [] && Promises(old(WholeStreams(bagWrappers)))
      ensures stop.Thrown? ==> !Quiet(left)
      ensures stop.Failed? ==>
        Quiet(left) && exists k: nat :: CanTake(Deliveries(left), k) && Undefined(Deliveries(left), k)
    {
      hide Sound, Left, Buffers, Delivers, Known, CanTake, Undefined, Deliveries, Quiet, Reaches, Promises,
        BagWrapper.Valid, BagWrapper.Rewound, WholeStreams, Output, Finished, TakeEvent, DeliveredSoFar;
      out, stop, picks, left := [], Ended, [], es;
      var ok := Begin(es);
      NothingDelivered(es);
      if !ok {
        stop := Thrown;
        return;
      }
      while msgQueue != []
        invariant Sound(left) && BagsReady() && Known(Deliveries(left))
        invariant fresh(out) && Reaches(es, picks, left) && DeliveredSoFar(out, Deliveries(es), picks)
        invariant WholeStreams(bagWrappers) == old(WholeStreams(bagWrappers))
        decreases Left(Deliveries(left))
      {
        var r, more, k := RoundKeeping(left, out, Deliveries(es), picks);
        if r.Err? {
          stop := Failed(r.error);
          return;
        }
        OneMoreDelivered(out, es, picks, left, r.value, k);
        out := out + [r.value];
        picks := picks + [k];
        left := TakeEvent(left, k);
        if !more {
          stop := Thrown;
          return;
        }
      }
      AtEnd(left);
    }

    lemma NothingDelivered(es: EventStreams)
      ensures DeliveredSoFar([], Deliveries(es), []) && Reaches(es, [], es)
    {
    }
  }

  /** How a loop over the messages stops: at the end, with an exception of the scan, or for want of a definition. */
  datatype Stop = Ended | Thrown | Failed(error: BagError)

  ghost predicate BagReady(bag: Bag)
    reads bag, bag.messageSchemata.Values
  {
    bag.Linked() && bag.Memo()
  }

  lemma BagReadyMeaning(bag: Bag)
    requires BagReady(bag)
    ensures bag.Linked() && bag.Memo()
  {
  }

  lemma BagIsReady(bag: Bag)
    requires bag.Linked() && bag.Memo()
    ensures BagReady(bag)
  {
  }
}
