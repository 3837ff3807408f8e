/**
 * Bag files as the format has them: the bytes of a file with given connections, messages and index, written without the
 * reader in sight, and what the reader makes of each record.
 */
module BagWriter {
  import opened Wrappers
  import opened Bytes
  import opened RosTimes
  import MsgTypes
  import opened Framing
  import opened BagTypes
  import opened BagIndex
  import opened Merge
  import opened Scan
  import opened Bags

  datatype WrittenConnection = WrittenConnection(
    topic: string, msgType: string, md5sum: string, definition: string, callerid: Option<string>,
    latching: Option<bool>)

  /** An INDEX_DATA record: so many messages on a connection; entries are their times and places, which nobody reads. */
  datatype WrittenIndex = WrittenIndex(conn: nat, count: nat, entries: seq<byte>)

  datatype WrittenChunk = WrittenChunk(messages: seq<Msg>, startTime: Time, endTime: Time, index: seq<WrittenIndex>)

  /** Connection i of the list has the id i. */
  datatype WrittenBag = WrittenBag(padding: seq<byte>, connections: seq<WrittenConnection>, chunks: seq<WrittenChunk>)

  function N32(n: nat): (b: seq<byte>)
    ensures |b| == 4
  {
    U32(n % TWO_TO_32)
  }

  function N64(n: nat): (b: seq<byte>)
    ensures |b| == 8
  {
    U64(n % (TWO_TO_32 * TWO_TO_32))
  }

  // ---------- Records ----------

  function BagHeader(b: WrittenBag, indexPos: nat): Record {
    Record([Field("op", [3]), Field("index_pos", N64(indexPos)), Field("conn_count", N32(|b.connections|)),
      Field("chunk_count", N32(|b.chunks|))], b.padding)
  }

  function ConnectionBody(c: WrittenConnection): seq<Field> {
    [Field("topic", Ascii(c.topic)), Field("type", Ascii(c.msgType)), Field("md5sum", Ascii(c.md5sum)),
     Field("message_definition", Ascii(c.definition))]
    + (if c.callerid.Some? then [Field("callerid", Ascii(c.callerid.value))] else [])
    + (if c.latching.Some? then [Field("latching", if c.latching.value then Ascii("1") else Ascii("0"))] else [])
  }

  function ConnectionRecordOf(id: nat, c: WrittenConnection): Record {
    Record([Field("op", [7]), Field("conn", N32(id)), Field("topic", Ascii(c.topic))], Encode(ConnectionBody(c)))
  }

  function IndexRecord(x: WrittenIndex): Record {
    Record([Field("op", [4]), Field("ver", N32(1)), Field("conn", N32(x.conn)), Field("count", N32(x.count))],
      x.entries)
  }

  function InfoRecord(c: WrittenChunk, pos: nat): Record {
    Record([Field("op", [6]), Field("ver", N32(1)), Field("chunk_pos", N64(pos)),
      Field("start_time", TimeBytes(c.startTime)), Field("end_time", TimeBytes(c.endTime)),
      Field("count", N32(|c.index|))], [])
  }

  function MessageRecords(ms: seq<Msg>): seq<Record> {
    seq(|ms|, i requires 0 <= i < |ms| => MessageRecord(ms[i]))
  }

  function IndexRecords(xs: seq<WrittenIndex>): seq<Record> {
    seq(|xs|, i requires 0 <= i < |xs| => IndexRecord(xs[i]))
  }

  function ContentOf(c: WrittenChunk): seq<byte> {
    RecordsBytes(MessageRecords(c.messages))
  }

  function ChunkRecord(c: WrittenChunk): Record {
    Record([Field("op", [5]), Field("compression", Ascii("none")), Field("size", N32(|ContentOf(c)|))], ContentOf(c))
  }

  // ---------- What the reader makes of a record ----------

  /** The last field with the given name is field i. */
  lemma FieldIs(fs: seq<Field>, i: nat)
    requires i < |fs| && forall j :: i < j < |fs| ==> fs[j].name != fs[i].name
    ensures fs[i].name in LastWins(fs) && LastWins(fs)[fs[i].name] == fs[i].value
  {
    LastWinsMeaning(fs, fs[i].name);
  }

  lemma N32IsRead(n: nat)
    requires n < TWO_TO_32
    ensures ReadU32(N32(n), 0) == n
  {
    U32RoundTrip(N32(n), 0, n);
  }

  lemma N64IsRead(n: nat)
    requires n < TWO_TO_32 * TWO_TO_32
    ensures ReadU64(N64(n), 0) == n
  {
    hide U64, ReadU64;
    assert n % (TWO_TO_32 * TWO_TO_32) == n;
    U64RoundTrip(N64(n), 0, n);
  }

  /** An INDEX_DATA record is read as its connection and count. */
  lemma IndexRecordMeaning(x: WrittenIndex)
    requires x.conn < TWO_TO_32 && x.count < TWO_TO_32
    ensures IndexEntryOf(HeaderMap(IndexRecord(x))) == IndexEntry(x.conn, x.count)
    ensures HasU32(HeaderMap(IndexRecord(x)), "ver")
  {
    hide LastWins, ReadU32, N32;
    var fs := IndexRecord(x).fields;
    assert |"op"| == 2 && |"ver"| == 3 && |"conn"| == 4 && |"count"| == 5;
    FieldIs(fs, 1);
    FieldIs(fs, 2);
    FieldIs(fs, 3);
    N32IsRead(x.conn);
    N32IsRead(x.count);
  }

  /** A CHUNK_INFO record is read as its position, times and number of INDEX_DATA records. */
  lemma InfoRecordMeaning(c: WrittenChunk, pos: nat)
    requires pos < TWO_TO_32 * TWO_TO_32 && |c.index| < TWO_TO_32
    ensures InfoOf(InfoRecord(c, pos)) == ChunkInfo(pos, c.startTime, c.endTime, 0, |c.index|)
    ensures
      var m := HeaderMap(InfoRecord(c, pos));
      HasU32(m, "ver") && HasU64(m, "chunk_pos") && HasU64(m, "start_time") && HasU64(m, "end_time") &&
        HasU32(m, "count")
  {
    hide LastWins, ReadU32, ReadU64, ReadTime, N32, N64, TimeBytes;
    var fs := InfoRecord(c, pos).fields;
    assert |"op"| == 2 && |"ver"| == 3 && |"chunk_pos"| == 9 && |"start_time"| == 10 && |"end_time"| == 8;
    assert |"count"| == 5;
    FieldIs(fs, 1);
    FieldIs(fs, 2);
    FieldIs(fs, 3);
    FieldIs(fs, 4);
    FieldIs(fs, 5);
    N64IsRead(pos);
    N32IsRead(|c.index|);
    TimeRoundTrip(TimeBytes(c.startTime), 0, c.startTime);
    TimeRoundTrip(TimeBytes(c.endTime), 0, c.endTime);
  }

  /** The header of a file is read as its counts and the position of its index. */
  lemma BagHeaderMeaning(b: WrittenBag, indexPos: nat)
    requires indexPos < TWO_TO_32 * TWO_TO_32 && |b.connections| < TWO_TO_32 && |b.chunks| < TWO_TO_32
    ensures
      var m := HeaderMap(BagHeader(b, indexPos));
      && HasU32(m, "conn_count") && U32Field(m, "conn_count") == |b.connections|
      && HasU32(m, "chunk_count") && U32Field(m, "chunk_count") == |b.chunks|
      && HasU64(m, "index_pos") && U64Field(m, "index_pos") == indexPos
  {
    hide LastWins, ReadU32, ReadU64, N32, N64;
    var fs := BagHeader(b, indexPos).fields;
    assert |"op"| == 2 && |"index_pos"| == 9 && |"conn_count"| == 10 && |"chunk_count"| == 11;
    FieldIs(fs, 1);
    FieldIs(fs, 2);
    FieldIs(fs, 3);
    N64IsRead(indexPos);
    N32IsRead(|b.connections|);
    N32IsRead(|b.chunks|);
  }

  /** Texts that can be written: single bytes. */
  predicate Writable(c: WrittenConnection) {
    && SingleBytes(c.topic) && SingleBytes(c.msgType) && SingleBytes(c.md5sum) && SingleBytes(c.definition)
    && (c.callerid.Some? ==> SingleBytes(c.callerid.value))
  }

  /** What a connection stands for in the tables of a bag. */
  function DataOf(c: WrittenConnection): ConnectionData {
    ConnectionData(c.topic, c.msgType, MsgTypes.ScopeOf(c.msgType), c.md5sum, c.definition,
      if c.callerid.Some? then c.callerid.value else "", c.latching == Some(true), 0)
  }

  lemma BodyNames()
    ensures |"topic"| == 5 && |"type"| == 4 && |"md5sum"| == 6 && |"message_definition"| == 18
    ensures |"callerid"| == 8 && |"latching"| == 8 && "callerid"[0] == 'c' && "latching"[0] == 'l'
  {
  }

  lemma RequiredFields(c: WrittenConnection)
    requires Writable(c)
    ensures
      var m := LastWins(ConnectionBody(c));
      && "type" in m && Chars(m["type"]) == c.msgType && "md5sum" in m && Chars(m["md5sum"]) == c.md5sum
      && "message_definition" in m && Chars(m["message_definition"]) == c.definition
  {
    hide LastWins, Ascii, Chars;
    var fs := ConnectionBody(c);
    BodyNames();
    FieldIs(fs, 1);
    FieldIs(fs, 2);
    FieldIs(fs, 3);
    CharsOfAscii(c.msgType);
    CharsOfAscii(c.md5sum);
    CharsOfAscii(c.definition);
  }

  lemma OptionalFields(c: WrittenConnection)
    requires Writable(c)
    ensures
      var m := LastWins(ConnectionBody(c));
      && ("callerid" in m <==> c.callerid.Some?) && (c.callerid.Some? ==> Chars(m["callerid"]) == c.callerid.value)
      && ("latching" in m <==> c.latching.Some?)
      && (c.latching.Some? ==> (Chars(m["latching"]) == "1" <==> c.latching.value))
  {
    hide LastWins, Ascii, Chars;
    var fs := ConnectionBody(c);
    BodyNames();
    LastWinsMeaning(fs, "callerid");
    LastWinsMeaning(fs, "latching");
    if c.callerid.Some? {
      assert fs[4].name == "callerid";
      CharsOfAscii(c.callerid.value);
    }
    if c.latching.Some? {
      assert fs[|fs| - 1].name == "latching";
      CharsOfAscii("1");
      CharsOfAscii("0");
      assert "1"[0] != "0"[0];
    }
  }

  lemma ConnectionHeaderMeaning(id: nat, c: WrittenConnection)
    requires id < TWO_TO_32 && Writable(c)
    ensures
      var m := HeaderMap(ConnectionRecordOf(id, c));
      HasU32(m, "conn") && U32Field(m, "conn") == id && "topic" in m && TextField(m, "topic") == c.topic
  {
    hide LastWins, Ascii, Chars, ReadU32, N32, Encode;
    var fs := ConnectionRecordOf(id, c).fields;
    assert |"op"| == 2 && |"conn"| == 4 && |"topic"| == 5;
    FieldIs(fs, 1);
    FieldIs(fs, 2);
    N32IsRead(id);
    CharsOfAscii(c.topic);
  }

  /** A CONNECTION record is read as its id, its topic and its data. */
  lemma ConnectionMeaning(id: nat, c: WrittenConnection)
    requires id < TWO_TO_32 && Writable(c)
    ensures
      var e := EntryOf(ConnectionRecordOf(id, c), ConnectionBody(c));
      e.Id() == id && e.Topic() == c.topic && e.Data() == DataOf(c)
  {
    hide LastWins, Ascii, Chars, ReadU32, N32, Encode, ConnectionBody;
    ConnectionHeaderMeaning(id, c);
    RequiredFields(c);
    OptionalFields(c);
  }

  /** A CHUNK record is taken iff its compression is one of three. */
  lemma CompressionIsTaken(compression: string, size: nat, data: seq<byte>)
    requires SingleBytes(compression)
    ensures
      var r := Record([Field("op", [5]), Field("compression", Ascii(compression)), Field("size", N32(size))], data);
      Supported(r) <==> compression == "lz4" || compression == "bz2" || compression == "none"
  {
    hide LastWins, Ascii, Chars, N32;
    var fs := [Field("op", [5]), Field("compression", Ascii(compression)), Field("size", N32(size))];
    assert |"op"| == 2 && |"compression"| == 11 && |"size"| == 4;
    FieldIs(fs, 1);
    CharsOfAscii(compression);
  }

  /** A CHUNK record is read as an uncompressed chunk with the bytes of its messages. */
  lemma ChunkMeaning(c: WrittenChunk, pos: nat, unpack: Unpacker)
    requires |ContentOf(c)| < TWO_TO_32 && pos < TWO_TO_32 * TWO_TO_32 && |c.index| < TWO_TO_32
    requires forall i :: 0 <= i < |c.index| ==> c.index[i].conn < TWO_TO_32 && c.index[i].count < TWO_TO_32
    ensures
      var r := ChunkOf(InfoRecord(c, pos), ChunkLayout(ChunkRecord(c), IndexRecords(c.index)), unpack);
      && r.offset == pos + |RecordBytes(ChunkRecord(c))| && r.compression == "none"
      && r.info == ChunkInfo(pos, c.startTime, c.endTime, r.info.messageCount, |c.index|)
      && r.content == ContentOf(c) && r.uncompressedSize == |ContentOf(c)|
    ensures Supported(ChunkRecord(c)) && "compression" in HeaderMap(ChunkRecord(c)) &&
      HasU32(HeaderMap(ChunkRecord(c)), "size")
  {
    hide LastWins, Ascii, Chars, ReadU32, N32, Encode, RecordBytes, ContentOf, InfoOf, IndexEntries, Total, Wrap32;
    var fs := ChunkRecord(c).fields;
    assert |"op"| == 2 && |"compression"| == 11 && |"size"| == 4;
    FieldIs(fs, 1);
    FieldIs(fs, 2);
    N32IsRead(|ContentOf(c)|);
    CharsOfAscii("none");
    InfoRecordMeaning(c, pos);
  }

  // ---------- Files ----------

  const MAGIC := "#ROSBAG V2.0\n"

  /** A chunk and the INDEX_DATA records behind it. */
  function Section(c: WrittenChunk): seq<byte> {
    RecordsBytes([ChunkRecord(c)] + IndexRecords(c.index))
  }

  function Sections(cs: seq<WrittenChunk>): seq<byte> {
    if cs == [] then [] else Sections(cs[..|cs| - 1]) + Section(cs[|cs| - 1])
  }

  /** Where chunk i starts, and where the index starts behind all chunks. */
  function ChunkPos(b: WrittenBag, i: nat): nat
    requires i <= |b.chunks|
  {
    |MAGIC| + |RecordBytes(BagHeader(b, 0))| + |Sections(b.chunks[..i])|
  }

  function IndexPos(b: WrittenBag): nat {
    ChunkPos(b, |b.chunks|)
  }

  function ConnectionRecords(b: WrittenBag): seq<Record> {
    seq(|b.connections|, i requires 0 <= i < |b.connections| => ConnectionRecordOf(i, b.connections[i]))
  }

  function Bodies(b: WrittenBag): seq<seq<Field>> {
    seq(|b.connections|, i requires 0 <= i < |b.connections| => ConnectionBody(b.connections[i]))
  }

  function InfoRecords(b: WrittenBag): seq<Record> {
    seq(|b.chunks|, i requires 0 <= i < |b.chunks| => InfoRecord(b.chunks[i], ChunkPos(b, i)))
  }

  function ChunkLayouts(b: WrittenBag): seq<ChunkLayout> {
    seq(|b.chunks|, i requires 0 <= i < |b.chunks| =>
      ChunkLayout(ChunkRecord(b.chunks[i]), IndexRecords(b.chunks[i].index)))
  }

  function LayoutOf(b: WrittenBag): BagLayout {
    BagLayout(BagHeader(b, IndexPos(b)), ConnectionRecords(b), Bodies(b), InfoRecords(b), ChunkLayouts(b))
  }

  /** The file: the first line, the header, the chunks, the connections, and what there is to know about the chunks. */
  function FileOf(b: WrittenBag): seq<byte> {
    Ascii(MAGIC) + RecordBytes(BagHeader(b, IndexPos(b))) + Sections(b.chunks) +
    RecordsBytes(ConnectionRecords(b) + InfoRecords(b))
  }

  /** What is written fits the widths of the format. */
  predicate FitsChunk(b: WrittenBag, i: nat)
    requires i < |b.chunks|
  {
    var c := b.chunks[i];
    && |c.index| < TWO_TO_32 && SmallRecord(ChunkRecord(c)) && SmallRecord(InfoRecord(c, ChunkPos(b, i)))
    && (forall j :: 0 <= j < |c.messages| ==>
      c.messages[j].connectionId < TWO_TO_32 && |c.messages[j].data| < TWO_TO_32)
    && forall j :: 0 <= j < |c.index| ==>
      c.index[j].conn < |b.connections| && c.index[j].count < TWO_TO_32 && SmallRecord(IndexRecord(c.index[j]))
  }

  predicate FitsConnection(id: nat, c: WrittenConnection) {
    Writable(c) && SmallRecord(ConnectionRecordOf(id, c)) && GoodFields(ConnectionBody(c))
  }

  predicate Fits(b: WrittenBag) {
    && |b.connections| < TWO_TO_32 && |b.chunks| < TWO_TO_32 && |FileOf(b)| < TWO_TO_32 * TWO_TO_32
    && SmallRecord(BagHeader(b, IndexPos(b)))
    && (forall i :: 0 <= i < |b.connections| ==> FitsConnection(i, b.connections[i]))
    && forall i :: 0 <= i < |b.chunks| ==> FitsChunk(b, i)
  }

  lemma {:induction false} FramesLength(a: seq<seq<byte>>, b: seq<seq<byte>>)
    requires |a| == |b| && forall i :: 0 <= i < |a| ==> |a[i]| == |b[i]|
    ensures |Frames(a)| == |Frames(b)|
  {
    if a != [] {
      FramesLength(a[1..], b[1..]);
    }
  }

  /** The header has one length wherever the index is. */
  lemma HeaderLength(b: WrittenBag, p: nat)
    ensures |RecordBytes(BagHeader(b, p))| == |RecordBytes(BagHeader(b, 0))|
  {
    hide N32, N64, Ascii;
    var fs, gs := BagHeader(b, p).fields, BagHeader(b, 0).fields;
    forall i | 0 <= i < |fs|
      ensures |Contents(fs)[i]| == |Contents(gs)[i]|
    {
      assert fs[i].name == gs[i].name && |fs[i].value| == |gs[i].value|;
      SameContentLength(fs[i], gs[i]);
    }
    FramesLength(Contents(fs), Contents(gs));
  }

  lemma SameContentLength(f: Field, g: Field)
    requires f.name == g.name && |f.value| == |g.value|
    ensures |Content(f)| == |Content(g)|
  {
  }

  lemma {:induction false} SectionAt(cs: seq<WrittenChunk>, i: nat, file: seq<byte>, base: nat)
    requires i < |cs| && Holds(file, base, Sections(cs))
    ensures Holds(file, base + |Sections(cs[..i])|, Section(cs[i]))
  {
    hide Section, Holds;
    var n := |cs| - 1;
    HoldsConcat(file, base, Sections(cs[..n]), Section(cs[n]));
    if i < n {
      SectionAt(cs[..n], i, file, base);
      assert cs[..n][..i] == cs[..i];
    }
  }

  /** The parts of the file lie where its header and its CHUNK_INFO records say. */
  lemma PartsLie(b: WrittenBag)
    ensures Holds(FileOf(b), 13, RecordBytes(BagHeader(b, IndexPos(b))))
    ensures Holds(FileOf(b), IndexPos(b), RecordsBytes(ConnectionRecords(b) + InfoRecords(b)))
    ensures forall i :: 0 <= i < |b.chunks| ==> Holds(FileOf(b), ChunkPos(b, i), Section(b.chunks[i]))
    ensures IndexPos(b) <= |FileOf(b)| && forall i :: 0 <= i < |b.chunks| ==> ChunkPos(b, i) <= |FileOf(b)|
  {
    hide RecordBytes, Sections, Section, RecordsBytes, ConnectionRecords, InfoRecords, BagHeader;
    var m, h, s := Ascii(MAGIC), RecordBytes(BagHeader(b, IndexPos(b))), Sections(b.chunks);
    var r, file := RecordsBytes(ConnectionRecords(b) + InfoRecords(b)), FileOf(b);
    assert |m| == 13;
    HeaderLength(b, IndexPos(b));
    assert b.chunks[..|b.chunks|] == b.chunks;
    assert Holds(file, 0, m + h + s + r);
    HoldsConcat(file, 0, m + h + s, r);
    HoldsConcat(file, 0, m + h, s);
    HoldsConcat(file, 0, m, h);
    forall i | 0 <= i < |b.chunks|
      ensures Holds(file, ChunkPos(b, i), Section(b.chunks[i])) && ChunkPos(b, i) <= |file|
    {
      SectionAt(b.chunks, i, file, |m| + |h|);
    }
  }

  /** The entries of a written file are its connections, in order, with their positions for ids. */
  lemma WrittenEntries(b: WrittenBag, i: nat)
    requires Fits(b) && i < |b.connections|
    ensures
      var es := Entries(LayoutOf(b));
      |es| == |b.connections| && es[i].Id() == i && es[i].Topic() == b.connections[i].topic &&
        es[i].Data() == DataOf(b.connections[i])
  {
    hide EntryOf, ConnectionRecordOf, ConnectionBody, Fits, ConnectionEntry.Id, ConnectionEntry.Topic,
      ConnectionEntry.Data, DataOf, InfoRecords, ChunkLayouts, IndexPos;
    FitsParts(b);
    assert FitsConnection(i, b.connections[i]);
    ConnectionMeaning(i, b.connections[i]);
  }

  lemma FitsParts(b: WrittenBag)
    requires Fits(b)
    ensures |b.connections| < TWO_TO_32 && |b.chunks| < TWO_TO_32
    ensures forall i :: 0 <= i < |b.connections| ==> FitsConnection(i, b.connections[i])
    ensures forall i :: 0 <= i < |b.chunks| ==> FitsChunk(b, i)
  {
    hide FitsConnection, FitsChunk;
  }

  function IndexOfChunk(c: WrittenChunk): seq<IndexEntry> {
    seq(|c.index|, i requires 0 <= i < |c.index| => IndexEntry(c.index[i].conn, c.index[i].count))
  }

  /** The INDEX_DATA records behind a chunk are read as they were written. */
  lemma WrittenIndexes(c: WrittenChunk)
    requires forall j :: 0 <= j < |c.index| ==> c.index[j].conn < TWO_TO_32 && c.index[j].count < TWO_TO_32
    ensures IndexEntries(IndexRecords(c.index)) == IndexOfChunk(c)
    ensures forall j :: 0 <= j < |c.index| ==> HasU32(HeaderMap(IndexRecords(c.index)[j]), "ver")
  {
    hide IndexRecord, IndexEntryOf, HeaderMap;
    forall j | 0 <= j < |c.index|
      ensures IndexEntryOf(HeaderMap(IndexRecord(c.index[j]))) == IndexEntry(c.index[j].conn, c.index[j].count)
      ensures HasU32(HeaderMap(IndexRecord(c.index[j])), "ver")
    {
      IndexRecordMeaning(c.index[j]);
    }
  }

  lemma WrittenConnectionIsGood(id: nat, c: WrittenConnection)
    requires id < TWO_TO_32 && FitsConnection(id, c)
    ensures GoodConnection(ConnectionRecordOf(id, c), ConnectionBody(c))
  {
    hide LastWins, Encode, GoodFields, SmallRecord, ConnectionBody, Writable, Chars;
    ConnectionHeaderMeaning(id, c);
    RequiredFields(c);
  }

  lemma WrittenChunkIsGood(b: WrittenBag, i: nat)
    requires Fits(b) && i < |b.chunks|
    ensures GoodChunk(FileOf(b), InfoRecord(b.chunks[i], ChunkPos(b, i)),
      ChunkLayout(ChunkRecord(b.chunks[i]), IndexRecords(b.chunks[i].index)))
    ensures InTable(IndexEntries(IndexRecords(b.chunks[i].index)), |b.connections|)
  {
    hide LastWins, Encode, SmallRecord, FileOf, Section, ChunkPos, ContentOf, HeaderMap, InfoRecord, ChunkRecord,
      IndexRecord, IndexEntryOf;
    var c, pos := b.chunks[i], ChunkPos(b, i);
    FitsParts(b);
    assert FitsChunk(b, i);
    PartsLie(b);
    assert Section(c) == RecordsBytes([ChunkRecord(c)] + IndexRecords(c.index)) by { SectionIs(c); }
    assert pos < TWO_TO_32 * TWO_TO_32;
    SmallContent(c);
    InfoRecordMeaning(c, pos);
    ChunkMeaning(c, pos, (_, _, _) => []);
    WrittenIndexes(c);
    forall j | 0 <= j < |c.index|
      ensures GoodIndexRecord(IndexRecord(c.index[j]))
    {
      IndexRecordMeaning(c.index[j]);
      HasIndexFields(c.index[j]);
    }
  }

  lemma SectionIs(c: WrittenChunk)
    ensures Section(c) == RecordsBytes([ChunkRecord(c)] + IndexRecords(c.index))
  {
  }

  lemma SmallContent(c: WrittenChunk)
    requires SmallRecord(ChunkRecord(c))
    ensures |ContentOf(c)| < TWO_TO_32
  {
    hide ContentOf, Encode;
  }

  lemma HasIndexFields(x: WrittenIndex)
    ensures HasU32(HeaderMap(IndexRecord(x)), "conn") && HasU32(HeaderMap(IndexRecord(x)), "count")
  {
    hide LastWins, N32;
    var fs := IndexRecord(x).fields;
    assert |"op"| == 2 && |"ver"| == 3 && |"conn"| == 4 && |"count"| == 5;
    FieldIs(fs, 2);
    FieldIs(fs, 3);
  }

  /** A written file is one that the reader takes. */
  lemma WrittenIsDescribed(b: WrittenBag)
    requires Fits(b)
    ensures Describes(FileOf(b), LayoutOf(b))
  {
    hide GoodConnection, GoodChunk, SmallRecord, RecordBytes, RecordsBytes, HeaderMap, FitsConnection, FitsChunk,
      ConnectionRecordOf, ConnectionBody, ChunkRecord, IndexRecords, InfoRecord, ConnectionEntry.Id,
      ConnectionEntry.Topic, EntryOf, IndexEntries, InTable, ChunkPos, BagHeader, Sections;
    var l := LayoutOf(b);
    FitsParts(b);
    PartsLie(b);
    assert IndexPos(b) < TWO_TO_32 * TWO_TO_32;
    BagHeaderMeaning(b, IndexPos(b));
    forall i | 0 <= i < |b.connections|
      ensures GoodConnection(l.connections[i], l.bodies[i]) && Entries(l)[i].Id() == i
    {
      WrittenConnectionIsGood(i, b.connections[i]);
      WrittenEntries(b, i);
    }
    forall i | 0 <= i < |b.chunks|
      ensures GoodChunk(FileOf(b), l.infos[i], l.chunks[i]) && InTable(AllIndexes(l.chunks)[i], |b.connections|)
    {
      WrittenChunkIsGood(b, i);
    }
  }
}
