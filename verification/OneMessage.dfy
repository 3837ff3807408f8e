/** A bag file with one connection and one message: there are files that can be written and read back. */
module OneMessageBags {
  import opened Wrappers
  import opened Bytes
  import opened RosTimes
  import opened FieldNames
  import opened Framing
  import opened Merge
  import opened Scan
  import opened BagWriter
  import opened WrittenBags

  function OneMessage(): WrittenBag {
    WrittenBag([], [WrittenConnection("a", "b", "c", "", None, None)],
      [WrittenChunk([Msg(0, Time(1, 0), [7])], Time(1, 0), Time(1, 0), [WrittenIndex(0, 1, [])])])
  }

  lemma {:induction false} FramesBound(cs: seq<seq<byte>>)
    requires forall i :: 0 <= i < |cs| ==> |cs[i]| <= 41
    ensures |Frames(cs)| <= 45 * |cs|
  {
    if cs != [] {
      FramesBound(cs[1..]);
    }
  }

  predicate Tiny(f: Field) {
    Plain(f.name) && |f.value| <= 20
  }

  predicate AllTiny(fs: seq<Field>) {
    |fs| <= 6 && forall i :: 0 <= i < |fs| ==> Tiny(fs[i])
  }

  lemma TinyFits(r: Record)
    requires AllTiny(r.fields) && |r.data| < 1000
    ensures SmallRecord(r) && |RecordBytes(r)| < 310 + |r.data|
  {
    FramesBound(Contents(r.fields));
  }

  lemma OneRecord(r: Record)
    ensures RecordsBytes([r]) == RecordBytes(r)
  {
    hide RecordBytes;
    assert [r][1..] == [];
  }

  lemma TwoRecords(a: Record, b: Record)
    ensures RecordsBytes([a, b]) == RecordBytes(a) + RecordBytes(b)
  {
    hide RecordBytes;
    assert [a, b][1..] == [b];
    OneRecord(b);
  }

  lemma TinyTexts()
    ensures |Ascii("a")| == |Ascii("b")| == |Ascii("c")| == 1 && |Ascii("")| == 0 && |Ascii("none")| == 4
    ensures SingleBytes("a") && SingleBytes("b") && SingleBytes("c") && SingleBytes("")
  {
  }

  lemma TinyConnection(c: WrittenConnection)
    requires c == WrittenConnection("a", "b", "c", "", None, None)
    ensures FitsConnection(0, c) && |RecordBytes(ConnectionRecordOf(0, c))| < 1000
  {
    hide Ascii, N32, RecordBytes, Encode, Plain, SmallRecord, GoodFields;
    TinyTexts();
    ShortNames("op");
    ShortNames("conn");
    ConnectionNames("topic");
    ConnectionNames("type");
    ConnectionNames("md5sum");
    var body := ConnectionBody(c);
    assert AllTiny(body);
    assert GoodFields(body) && |Encode(body)| < 300 by { TinyBody(body); }
    TinyFits(ConnectionRecordOf(0, c));
  }

  lemma TinyBody(fs: seq<Field>)
    requires AllTiny(fs)
    ensures GoodFields(fs) && |Encode(fs)| < 300
  {
    FramesBound(Contents(fs));
  }

  lemma TinyChunk(m: Msg, c: WrittenChunk)
    requires m == Msg(0, Time(1, 0), [7])
    requires c == WrittenChunk([m], Time(1, 0), Time(1, 0), [WrittenIndex(0, 1, [])])
    ensures SmallRecord(ChunkRecord(c)) && SmallRecord(IndexRecord(c.index[0])) && |Section(c)| < 2000
  {
    hide Ascii, N32, N64, TimeBytes, U32, RecordBytes, SmallRecord, RecordsBytes, Plain;
    TinyTexts();
    ShortNames("op");
    ShortNames("ver");
    ShortNames("conn");
    ShortNames("count");
    ShortNames("time");
    ShortNames("size");
    TimeNames("compression");
    TinyFits(MessageRecord(m));
    OneRecord(MessageRecord(m));
    assert MessageRecords(c.messages) == [MessageRecord(m)];
    TinyFits(ChunkRecord(c));
    TinyFits(IndexRecord(c.index[0]));
    assert [ChunkRecord(c)] + IndexRecords(c.index) == [ChunkRecord(c), IndexRecord(c.index[0])];
    TwoRecords(ChunkRecord(c), IndexRecord(c.index[0]));
  }

  lemma TinyInfo(c: WrittenChunk, pos: nat)
    ensures SmallRecord(InfoRecord(c, pos)) && |RecordBytes(InfoRecord(c, pos))| < 1000
  {
    hide N32, N64, TimeBytes, RecordBytes, SmallRecord, Plain;
    ShortNames("op");
    ShortNames("ver");
    PositionNames("chunk_pos");
    TimeNames("start_time");
    TimeNames("end_time");
    ShortNames("count");
    TinyFits(InfoRecord(c, pos));
  }

  lemma TinyHeader(b: WrittenBag, p: nat)
    requires b.padding == []
    ensures SmallRecord(BagHeader(b, p)) && |RecordBytes(BagHeader(b, p))| < 1000
  {
    hide N32, N64, RecordBytes, SmallRecord, Plain;
    ShortNames("op");
    PositionNames("index_pos");
    PositionNames("conn_count");
    PositionNames("chunk_count");
    TinyFits(BagHeader(b, p));
  }

  /** There are such files. */
  lemma OneMessageIsWritten()
    ensures AllWritten([OneMessage()])
  {
    hide ConnectionRecordOf, ConnectionBody, ChunkRecord, IndexRecord, InfoRecord, BagHeader, RecordBytes,
      RecordsBytes, Section, SmallRecord, FitsConnection;
    var b := OneMessage();
    var c := b.chunks[0];
    TinyConnection(b.connections[0]);
    TinyChunk(c.messages[0], c);
    TinyInfo(c, ChunkPos(b, 0));
    TinyHeader(b, IndexPos(b));
    assert b.chunks[..0] == [] && Sections([]) == [] && Sections(b.chunks) == Sections(b.chunks[..0]) + Section(c);
    assert ConnectionRecords(b) + InfoRecords(b) ==
      [ConnectionRecordOf(0, b.connections[0]), InfoRecord(c, ChunkPos(b, 0))];
    TwoRecords(ConnectionRecordOf(0, b.connections[0]), InfoRecord(c, ChunkPos(b, 0)));
    assert |FileOf(b)| < 10000;
    assert c.index[0].conn == c.messages[0].connectionId;
  }
}
