/**
 * Writing and reading back: what a query over written bag files delivers, in terms of the connections and messages that
 * were written.
 */
module WrittenBags {
  import opened Bytes
  import opened RosTimes
  import opened Framing
  import opened BagTypes
  import opened BagIndex
  import opened Merge
  import opened Runs
  import opened Scan
  import opened Bags
  import opened Messages
  import opened Views
  import opened Selecting
  import opened Queries
  import opened EndToEnd
  import opened BagWriter

  /** All messages of a written bag, in file order. */
  function MessagesIn(cs: seq<WrittenChunk>): seq<Msg> {
    if cs == [] then [] else cs[0].messages + MessagesIn(cs[1..])
  }

  /** The connections on some topics. */
  function IdsOn(b: WrittenBag, names: seq<string>): set<nat> {
    set i: nat | i < |b.connections| && b.connections[i].topic != "" && b.connections[i].topic in names
  }

  /** Chunks are not empty, and end with a message that has data. */
  predicate Scannable(b: WrittenBag) {
    forall i :: 0 <= i < |b.chunks| ==>
      b.chunks[i].messages != [] && b.chunks[i].messages[|b.chunks[i].messages| - 1].data != []
  }

  /** The INDEX_DATA records behind a chunk name the connection of each of its messages. */
  predicate Listed(b: WrittenBag) {
    forall i, j :: 0 <= i < |b.chunks| && 0 <= j < |b.chunks[i].messages| ==>
      exists k :: 0 <= k < |b.chunks[i].index| && b.chunks[i].index[k].conn == b.chunks[i].messages[j].connectionId
  }

  /** The chunk table of a written file. */
  function TableOf(b: WrittenBag, unpack: Unpacker): (cs: seq<Chunk>)
    ensures |cs| == |b.chunks|
  {
    ChunksOf(LayoutOf(b), unpack)
  }

  /** The records of each written chunk. */
  ghost predicate HoldsMessages(b: WrittenBag, unpack: Unpacker, log: Log) {
    forall i :: 0 <= i < |b.chunks| ==> log(TableOf(b, unpack)[i]) == MessageRecords(b.chunks[i].messages)
  }

  // ---------- One chunk ----------

  predicate FitMessages(ms: seq<Msg>) {
    forall j :: 0 <= j < |ms| ==> ms[j].connectionId < TWO_TO_32 && |ms[j].data| < TWO_TO_32
  }

  lemma {:induction false} MessagesOfWritten(ms: seq<Msg>)
    requires FitMessages(ms)
    ensures MessagesOf(MessageRecords(ms)) == ms
  {
    hide HeaderOf, MsgOf, MessageRecord;
    if ms != [] {
      MessageRecordMeaning(ms[0]);
      MessagesOfWritten(ms[1..]);
      assert MessageRecords(ms)[1..] == MessageRecords(ms[1..]);
      assert ms == [ms[0]] + ms[1..];
    }
  }

  lemma WrittenRecordsAreGood(ms: seq<Msg>)
    requires FitMessages(ms)
    ensures GoodRecords(MessageRecords(ms))
    ensures forall i :: 0 <= i < |ms| ==>
      HeaderOf(MessageRecords(ms)[i]).op == 2 && MessageRecords(ms)[i].data == ms[i].data
  {
    hide HeaderOf, MsgOf, MessageRecord, GoodRecord;
    forall i | 0 <= i < |ms|
      ensures GoodRecord(MessageRecord(ms[i])) && HeaderOf(MessageRecord(ms[i])).op == 2
      ensures MessageRecord(ms[i]).data == ms[i].data
    {
      MessageRecordMeaning(ms[i]);
    }
  }

  lemma ChunkFits(b: WrittenBag, i: nat)
    requires Fits(b) && i < |b.chunks|
    ensures FitMessages(b.chunks[i].messages) && ChunkPos(b, i) < TWO_TO_32 * TWO_TO_32
    ensures |b.chunks[i].index| < TWO_TO_32 && |ContentOf(b.chunks[i])| < TWO_TO_32
    ensures |b.connections| < TWO_TO_32
    ensures forall j :: 0 <= j < |b.chunks[i].index| ==>
      b.chunks[i].index[j].conn < |b.connections| && b.chunks[i].index[j].count < TWO_TO_32
  {
    hide SmallRecord, ContentOf, FileOf, ChunkPos, Fits;
    FitsParts(b);
    assert FitsChunk(b, i);
    PartsLie(b);
    FileIsSmall(b);
    SmallContent(b.chunks[i]);
  }

  lemma FileIsSmall(b: WrittenBag)
    requires Fits(b)
    ensures |FileOf(b)| < TWO_TO_32 * TWO_TO_32
  {
    hide FileOf, FitsChunk, FitsConnection;
  }

  /** The entry of a written chunk: its content, and an offset behind its record. */
  lemma WrittenChunkAt(b: WrittenBag, i: nat, unpack: Unpacker)
    requires Fits(b) && i < |b.chunks|
    ensures
      var c := TableOf(b, unpack)[i];
      && c.offset == ChunkPos(b, i) + |RecordBytes(ChunkRecord(b.chunks[i]))|
      && c.content == ContentOf(b.chunks[i]) && c.uncompressedSize == |c.content|
      && Readable(c, MessageRecords(b.chunks[i].messages))
    ensures Supported(LayoutOf(b).chunks[i].chunk)
  {
    hide FitMessages, RecordBytes, ChunkRecord, InfoRecord, IndexRecords, ChunkOf, RecordsBytes, MessageRecords,
      GoodRecords, Supported, ChunkPos, IndexPos, BagHeader, ConnectionRecords, Fits;
    ChunkFits(b, i);
    ChunkMeaning(b.chunks[i], ChunkPos(b, i), unpack);
    WrittenRecordsAreGood(b.chunks[i].messages);
  }

  // ---------- All chunks ----------

  lemma {:induction false} SectionsGrow(cs: seq<WrittenChunk>, i: nat, j: nat)
    requires i < j <= |cs|
    ensures |Sections(cs[..i])| + |Section(cs[i])| <= |Sections(cs[..j])|
    decreases j
  {
    hide Section;
    assert cs[..j][..j - 1] == cs[..j - 1];
    if i < j - 1 {
      SectionsGrow(cs, i, j - 1);
    }
  }

  lemma SectionHasChunk(c: WrittenChunk)
    ensures |Section(c)| >= |RecordBytes(ChunkRecord(c))| > 0
  {
    hide RecordBytes, ChunkRecord;
    NonEmptyRecords([]);
    assert ([ChunkRecord(c)] + IndexRecords(c.index))[0] == ChunkRecord(c);
  }

  /** The chunks of a written file have the order that they have in the file. */
  lemma WrittenChunksAreOrdered(b: WrittenBag, unpack: Unpacker)
    requires Fits(b)
    ensures var cs := TableOf(b, unpack); ByOffset(cs) && DistinctOffsets(cs) && AllChunks(cs) == cs
  {
    hide ChunkOf, Fits, AllChunks, Sections, Section, RecordBytes, ChunkRecord, BagHeader;
    var cs := TableOf(b, unpack);
    forall i, j | 0 <= i < j < |cs|
      ensures cs[i].offset < cs[j].offset
    {
      WrittenChunkAt(b, i, unpack);
      WrittenChunkAt(b, j, unpack);
      SectionsGrow(b.chunks, i, j);
      SectionHasChunk(b.chunks[i]);
      SectionHasChunk(b.chunks[j]);
    }
    AllChunksMeaning(cs);
    OrderedSetsEqual(AllChunks(cs), cs);
  }

  lemma {:induction false} FlatOfWritten(logs: seq<seq<Record>>, ws: seq<WrittenChunk>)
    requires |logs| == |ws| && forall i :: 0 <= i < |ws| ==> MessagesOf(logs[i]) == ws[i].messages
    ensures Flat(logs) == MessagesIn(ws)
  {
    hide MessagesOf;
    if ws != [] {
      FlatOfWritten(logs[1..], ws[1..]);
    }
  }

  lemma LogsOfWritten(b: WrittenBag, unpack: Unpacker, log: Log)
    requires Fits(b) && HoldsMessages(b, unpack, log)
    ensures Flat(Logs(TableOf(b, unpack), log)) == MessagesIn(b.chunks)
  {
    hide ChunkOf, Fits, MessagesOf, MessageRecords, IndexPos, BagHeader, FitMessages;
    var cs := TableOf(b, unpack);
    forall i | 0 <= i < |cs|
      ensures MessagesOf(Logs(cs, log)[i]) == b.chunks[i].messages
    {
      ChunkFits(b, i);
      MessagesOfWritten(b.chunks[i].messages);
    }
    FlatOfWritten(Logs(cs, log), b.chunks);
  }

  /** Every chunk of the table is one that was written, and can be read and scanned. */
  lemma WrittenCanBeScanned(b: WrittenBag, unpack: Unpacker, log: Log, x: Chunk)
    requires Fits(b) && HoldsMessages(b, unpack, log) && x in TableOf(b, unpack)
    ensures Readable(x, log(x))
    ensures Scannable(b) ==> log(x) != [] && CleanTail(log(x))
  {
    hide TableOf, LayoutOf, Fits, MessageRecord, HeaderOf, FitMessages, Readable, GoodRecords, ChunkRecord,
      ChunkPos, RecordBytes, ContentOf, Supported;
    var cs := TableOf(b, unpack);
    var i :| 0 <= i < |cs| && cs[i] == x;
    ChunkFits(b, i);
    WrittenChunkAt(b, i, unpack);
    WrittenRecordsAreGood(b.chunks[i].messages);
  }

  lemma WrittenIds(b: WrittenBag, names: seq<string>)
    requires Fits(b)
    ensures IdsOfLayout(LayoutOf(b), names) == IdsOn(b, names)
  {
    hide Fits, EntryOf, ConnectionEntry.Id, ConnectionEntry.Topic, IndexPos, BagHeader, InfoRecords, ChunkLayouts;
    var es := Entries(LayoutOf(b));
    forall i: nat | i < |b.connections|
      ensures |es| == |b.connections| && es[i].Id() == i && es[i].Topic() == b.connections[i].topic
    {
      WrittenEntries(b, i);
    }
    forall c
      ensures c in IdsOfLayout(LayoutOf(b), names) <==> c in IdsOn(b, names)
    {
      if c in IdsOfLayout(LayoutOf(b), names) {
        var e :| e in es && e.Topic() != "" && e.Topic() in names && c == e.Id();
        var i: nat :| i < |es| && es[i] == e;
      }
      if c in IdsOn(b, names) {
        assert es[c] in es;
      }
    }
  }

  lemma WrittenIndexAt(b: WrittenBag, i: nat)
    requires Fits(b) && i < |b.chunks|
    ensures |AllIndexes(LayoutOf(b).chunks)| == |b.chunks|
    ensures AllIndexes(LayoutOf(b).chunks)[i] == IndexOfChunk(b.chunks[i])
  {
    hide Fits, IndexEntries, IndexRecords, IndexOfChunk, FitMessages;
    ChunkFits(b, i);
    WrittenIndexes(b.chunks[i]);
  }

  /** An index that lists the connections of all messages is complete, whatever is selected. */
  lemma ListedIsComplete(b: WrittenBag, unpack: Unpacker, log: Log, ids: set<nat>)
    requires Fits(b) && Listed(b) && HoldsMessages(b, unpack, log)
    ensures RecordsComplete(AllIndexes(LayoutOf(b).chunks), TableOf(b, unpack), log, ids)
  {
    hide Fits, ChunkOf, MessageRecords, MessagesOf, IndexEntries, IndexPos, BagHeader, FitMessages;
    var all, cs := AllIndexes(LayoutOf(b).chunks), TableOf(b, unpack);
    forall i | 0 <= i < |cs| && HasMessage(log(cs[i]), ids)
      ensures exists c :: c in ids && IndexNames(all, i, c)
    {
      var w := b.chunks[i];
      ChunkFits(b, i);
      MessagesOfWritten(w.messages);
      WrittenIndexAt(b, i);
      var m :| m in w.messages && m.connectionId in ids;
      var j :| 0 <= j < |w.messages| && w.messages[j] == m;
      var k :| 0 <= k < |w.index| && w.index[k].conn == w.messages[j].connectionId;
      assert all[i][k].conn == m.connectionId;
      assert IndexNames(all, i, m.connectionId);
    }
  }

  /** What the scan of a written file brings for some topics: the messages that were written on these topics, in the
      order in which they were written. */
  lemma WrittenComesBack(b: WrittenBag, names: seq<string>, unpack: Unpacker, log: Log)
    requires Fits(b) && Listed(b) && Scannable(b) && HoldsMessages(b, unpack, log)
    ensures EventsOf(SelectionOfLayout(LayoutOf(b), names, unpack), log) ==
      DeliverAll(Keep(MessagesIn(b.chunks), IdsOn(b, names)))
    ensures AllReadable(SelectionOfLayout(LayoutOf(b), names, unpack).chunks, log)
  {
    hide Fits, Listed, Scannable, HoldsMessages, LayoutOf, ChunksOf, RecordsComplete, SelectionOfLayout, EventsOf,
      IdsOfLayout, IdsOn, Flat, Logs, Keep, AllChunks, MessagesIn, CleanTail, Readable, Describes, Coherent,
      BeforeThrow, ByOffset, DistinctOffsets;
    var l := LayoutOf(b);
    WrittenIsDescribed(b);
    DescribedIsCoherent(FileOf(b), l);
    CoherentSizes(l);
    var cs, s := ChunksOf(l, unpack), SelectionOfLayout(l, names, unpack);
    WrittenChunksAreOrdered(b, unpack);
    ListedIsComplete(b, unpack, log, IdsOfLayout(l, names));
    FileEventsMeaning(l, names, unpack, log);
    SelectedOfLayout(l, names, unpack);
    forall x | x in s.chunks
      ensures Readable(x, log(x)) && log(x) != [] && CleanTail(log(x))
    {
      WrittenCanBeScanned(b, unpack, log, x);
    }
    CleanLogs(s.chunks, log);
    LogsOfWritten(b, unpack, log);
    WrittenIds(b, names);
    StreamIs(l, names, unpack, log);
  }

  lemma CoherentSizes(l: BagLayout)
    requires Coherent(l)
    ensures |l.bodies| == |l.connections| && |l.infos| == |l.chunks|
  {
  }

  lemma StreamIs(l: BagLayout, names: seq<string>, unpack: Unpacker, log: Log)
    requires Coherent(l)
    ensures StreamOfLayout(l, names, unpack, log) ==
      Keep(Flat(Logs(AllChunks(ChunksOf(l, unpack)), log)), IdsOfLayout(l, names))
  {
  }

  lemma CleanLogs(cs: seq<Chunk>, log: Log)
    requires forall x :: x in cs ==> log(x) != [] && CleanTail(log(x))
    ensures Clean(Logs(cs, log))
  {
    hide CleanTail;
  }

  /** The selected chunks of a layout are chunks of its table. */
  lemma SelectedOfLayout(l: BagLayout, names: seq<string>, unpack: Unpacker)
    requires Coherent(l) && DistinctOffsets(ChunksOf(l, unpack))
    ensures forall x :: x in SelectionOfLayout(l, names, unpack).chunks ==> x in ChunksOf(l, unpack)
  {
    hide Table, AddChunks, Topics, ChunkOf, IdsInRange, AllInTable, GoodIndex, Selecting.Select, DistinctOffsets;
    var table, topics, chunks := IndexTable(l), Topics(Entries(l)), ChunksOf(l, unpack);
    ReadIndexIsGood(Entries(l), |l.connections|, AllIndexes(l.chunks), chunks);
    SelectCovers(names, table, topics, chunks);
  }

  // ---------- The bytes of messages determine them ----------

  lemma SplitEqual<T>(a: seq<T>, b: seq<T>, c: seq<T>, d: seq<T>)
    requires |a| == |c| && a + b == c + d
    ensures a == c && b == d
  {
    assert a == (a + b)[..|a|] && c == (c + d)[..|c|];
    assert b == (a + b)[|a|..] && d == (c + d)[|c|..];
  }

  lemma U32IsInjective(a: nat, b: nat)
    requires a < TWO_TO_32 && b < TWO_TO_32 && U32(a) == U32(b)
    ensures a == b
  {
    U32RoundTrip(U32(a), 0, a);
    U32RoundTrip(U32(a), 0, b);
  }

  lemma FieldBytes(f: Field, g: Field)
    requires f.name == g.name && |f.value| == |g.value| && Frame(Content(f)) == Frame(Content(g))
    ensures f.value == g.value
  {
    hide U32;
    SplitEqual(U32(|Content(f)| % TWO_TO_32), Content(f), U32(|Content(g)| % TWO_TO_32), Content(g));
    SplitEqual(Ascii(f.name) + [EQUALS], f.value, Ascii(g.name) + [EQUALS], g.value);
  }

  lemma ThreeFields(fs: seq<Field>)
    requires |fs| == 3
    ensures Encode(fs) == Frame(Content(fs[0])) + (Frame(Content(fs[1])) + Frame(Content(fs[2])))
  {
    hide Content, Frame;
    var c := Contents(fs);
    assert c[1..][1..] == c[2..] && c[2..][1..] == c[3..] && |c[3..]| == 0;
    assert Frames(c[2..]) == Frame(c[2]) + Frames(c[3..]) && Frames(c[1..]) == Frame(c[1]) + Frames(c[2..]);
  }

  lemma HeaderBytes(m: Msg, n: Msg)
    requires m.connectionId < TWO_TO_32 && n.connectionId < TWO_TO_32
    requires Encode(MessageRecord(m).fields) == Encode(MessageRecord(n).fields)
    ensures m.connectionId == n.connectionId && m.timestamp == n.timestamp
  {
    hide Encode, Content, Frame, U32, TimeBytes;
    var fs, gs := MessageRecord(m).fields, MessageRecord(n).fields;
    ThreeFields(fs);
    ThreeFields(gs);
    forall i | 0 <= i < 3
      ensures |Frame(Content(fs[i]))| == |Frame(Content(gs[i]))|
    {
      SameFrameLength(fs[i], gs[i]);
    }
    SplitEqual(Frame(Content(fs[0])), Frame(Content(fs[1])) + Frame(Content(fs[2])), Frame(Content(gs[0])),
      Frame(Content(gs[1])) + Frame(Content(gs[2])));
    SplitEqual(Frame(Content(fs[1])), Frame(Content(fs[2])), Frame(Content(gs[1])), Frame(Content(gs[2])));
    FieldBytes(fs[1], gs[1]);
    FieldBytes(fs[2], gs[2]);
    U32IsInjective(m.connectionId, n.connectionId);
    TimeRoundTrip(fs[2].value, 0, m.timestamp);
    TimeRoundTrip(fs[2].value, 0, n.timestamp);
  }

  lemma SameFrameLength(f: Field, g: Field)
    requires f.name == g.name && |f.value| == |g.value|
    ensures |Frame(Content(f))| == |Frame(Content(g))|
  {
  }

  /** One memory, one first record. */
  lemma FirstRecordIsUnique(mem: seq<byte>, m: Msg, n: Msg)
    requires FitMessages([m]) && FitMessages([n])
    requires Bytes.Holds(mem, 0, RecordBytes(MessageRecord(m))) && Bytes.Holds(mem, 0, RecordBytes(MessageRecord(n)))
    ensures m == n
  {
    hide RecordBytes, Encode, MessageRecord;
    assert [m][0] == m && [n][0] == n;
    MessageRecordMeaning(m);
    MessageRecordMeaning(n);
    GoodIsSmall(MessageRecord(m));
    GoodIsSmall(MessageRecord(n));
    RecordParts(mem, 0, MessageRecord(m));
    RecordParts(mem, 0, MessageRecord(n));
    HeaderBytes(m, n);
  }

  lemma {:induction false} BytesDecideMessages(ms: seq<Msg>, ns: seq<Msg>)
    requires FitMessages(ms) && FitMessages(ns)
    requires RecordsBytes(MessageRecords(ms)) == RecordsBytes(MessageRecords(ns))
    ensures ms == ns
  {
    hide RecordBytes, MessageRecord;
    var a, b := MessageRecords(ms), MessageRecords(ns);
    NonEmptyRecords(a);
    NonEmptyRecords(b);
    if ms != [] {
      var mem := RecordsBytes(a);
      assert a[1..] == MessageRecords(ms[1..]) && b[1..] == MessageRecords(ns[1..]);
      assert Bytes.Holds(mem, 0, RecordBytes(a[0]) + RecordsBytes(a[1..]));
      assert Bytes.Holds(mem, 0, RecordBytes(b[0]) + RecordsBytes(b[1..]));
      HoldsConcat(mem, 0, RecordBytes(a[0]), RecordsBytes(a[1..]));
      HoldsConcat(mem, 0, RecordBytes(b[0]), RecordsBytes(b[1..]));
      FirstRecordIsUnique(mem, ms[0], ns[0]);
      SplitEqual(RecordBytes(a[0]), RecordsBytes(a[1..]), RecordBytes(b[0]), RecordsBytes(b[1..]));
      BytesDecideMessages(ms[1..], ns[1..]);
      assert ms == [ms[0]] + ms[1..] && ns == [ns[0]] + ns[1..];
    }
  }

  // ---------- Several files ----------

  /** Entry x of the table of a bag is that of chunk j of written bag i. */
  ghost predicate IsChunk(bs: seq<WrittenBag>, unpack: Unpacker, x: Chunk, i: nat, j: nat) {
    i < |bs| && j < |bs[i].chunks| && TableOf(bs[i], unpack)[j] == x
  }

  /** What the chunks of written bags hold. */
  ghost function RecordsIn(bs: seq<WrittenBag>, unpack: Unpacker, x: Chunk): seq<Record> {
    if exists i: nat, j: nat :: IsChunk(bs, unpack, x, i, j) then
      var i: nat, j: nat :| IsChunk(bs, unpack, x, i, j);
      MessageRecords(bs[i].chunks[j].messages)
    else []
  }

  lemma ChunkIsThere(bs: seq<WrittenBag>, unpack: Unpacker, x: Chunk, i: nat, j: nat)
    requires IsChunk(bs, unpack, x, i, j)
    ensures i < |bs| && j < |bs[i].chunks| && TableOf(bs[i], unpack)[j] == x
  {
  }

  lemma SameChunksSameMessages(a: WrittenBag, i: nat, b: WrittenBag, j: nat, unpack: Unpacker)
    requires Fits(a) && i < |a.chunks| && Fits(b) && j < |b.chunks|
    requires TableOf(a, unpack)[i] == TableOf(b, unpack)[j]
    ensures a.chunks[i].messages == b.chunks[j].messages
  {
    hide Fits, TableOf, LayoutOf, ChunkRecord, ChunkPos, RecordBytes, RecordsBytes, Readable, MessageRecords,
      FitMessages, Supported;
    WrittenChunkAt(a, i, unpack);
    WrittenChunkAt(b, j, unpack);
    ChunkFits(a, i);
    ChunkFits(b, j);
    BytesDecideMessages(a.chunks[i].messages, b.chunks[j].messages);
  }

  lemma RecordIsWritten(bs: seq<WrittenBag>, unpack: Unpacker, i: nat, j: nat)
    requires i < |bs| && j < |bs[i].chunks| && forall k :: 0 <= k < |bs| ==> Fits(bs[k])
    ensures RecordsIn(bs, unpack, TableOf(bs[i], unpack)[j]) == MessageRecords(bs[i].chunks[j].messages)
  {
    hide Fits, TableOf, MessageRecords;
    var x := TableOf(bs[i], unpack)[j];
    assert IsChunk(bs, unpack, x, i, j);
    var k: nat, l: nat :| IsChunk(bs, unpack, x, k, l) &&
      RecordsIn(bs, unpack, x) == MessageRecords(bs[k].chunks[l].messages);
    ChunkIsThere(bs, unpack, x, k, l);
    SameChunksSameMessages(bs[i], j, bs[k], l, unpack);
  }

  /** It is what was written, although chunks of different files may look the same. */
  lemma RecordsAreWritten(bs: seq<WrittenBag>, unpack: Unpacker, log: Log, i: nat)
    requires i < |bs| && (forall k :: 0 <= k < |bs| ==> Fits(bs[k]))
    requires forall x :: log(x) == RecordsIn(bs, unpack, x)
    ensures HoldsMessages(bs[i], unpack, log)
  {
    hide Fits, TableOf, MessageRecords, RecordsIn;
    forall j: nat | j < |bs[i].chunks|
      ensures log(TableOf(bs[i], unpack)[j]) == MessageRecords(bs[i].chunks[j].messages)
    {
      RecordIsWritten(bs, unpack, i, j);
    }
  }

  lemma ContentIs(c: WrittenChunk)
    ensures ContentOf(c) == RecordsBytes(MessageRecords(c.messages))
  {
  }

  /** What was written on some topics, bag by bag. */
  function WrittenStreams(bs: seq<WrittenBag>, names: seq<string>): Streams {
    seq(|bs|, i requires 0 <= i < |bs| => Keep(MessagesIn(bs[i].chunks), IdsOn(bs[i], names)))
  }

  /** A delivered message is the written one: topic and checksum of its connection, its time and its bytes. */
  ghost predicate IsWritten(r: RosMessage, m: Msg, b: WrittenBag)
    reads r.rawBuffer
  {
    && m.connectionId < |b.connections|
    && r.topic == b.connections[m.connectionId].topic && r.md5 == b.connections[m.connectionId].md5sum
    && r.timestamp == m.timestamp && r.InBounds() && r.RawData() == m.data
  }

  predicate AllWritten(bs: seq<WrittenBag>) {
    forall i :: 0 <= i < |bs| ==> Fits(bs[i]) && Listed(bs[i]) && Scannable(bs[i])
  }

  function FilesOf(bs: seq<WrittenBag>): seq<seq<byte>> {
    seq(|bs|, i requires 0 <= i < |bs| => FileOf(bs[i]))
  }

  function LayoutsOf(bs: seq<WrittenBag>): seq<BagLayout> {
    seq(|bs|, i requires 0 <= i < |bs| => LayoutOf(bs[i]))
  }

  /** The table entry of a written connection with a topic. */
  lemma WrittenTable(b: WrittenBag, c: nat)
    requires Fits(b) && Coherent(LayoutOf(b)) && c < |b.connections| && b.connections[c].topic != ""
    ensures
      var t := IndexTable(LayoutOf(b));
      c < |t| && t[c].topic == b.connections[c].topic && t[c].data.(messageCount := 0) == DataOf(b.connections[c])
  {
    hide Fits, EntryOf, ConnectionEntry.Id, ConnectionEntry.Topic, ConnectionEntry.Data, DataOf, Table, AddChunks,
      IdsInRange, AllInTable, IndexPos, BagHeader;
    var l := LayoutOf(b);
    var es, n := Entries(l), |b.connections|;
    forall i: nat | i < n
      ensures es[i].Id() == i && es[i].Topic() == b.connections[i].topic && es[i].Data() == DataOf(b.connections[i])
    {
      WrittenEntries(b, i);
    }
    assert NamesLast(es, c, c);
    TableHoldsEntries(es, n, c);
    ChunksOfConnection(Table(es, n), AllIndexes(l.chunks), c);
    NoCountYet(b.connections[c]);
  }

  lemma NoCountYet(c: WrittenConnection)
    ensures DataOf(c).messageCount == 0
  {
  }

  lemma DeliveredIsWritten(r: RosMessage, m: Msg, bag: Bag, b: WrittenBag)
    requires Fits(b) && Delivers(r, m, bag) && Loaded(bag, LayoutOf(b))
    requires m.connectionId < |b.connections| && b.connections[m.connectionId].topic != ""
    ensures IsWritten(r, m, b)
  {
    hide Fits, LayoutOf, IndexTable, Coherent, RosMessage.Valid, Bag.TopicDefinition;
    LoadedIsCoherent(bag, LayoutOf(b));
    WrittenTable(b, m.connectionId);
    DataIs(b.connections[m.connectionId]);
  }

  lemma LoadedIsCoherent(bag: Bag, l: BagLayout)
    requires Loaded(bag, l)
    ensures Coherent(l)
  {
  }

  lemma DataIs(c: WrittenConnection)
    ensures DataOf(c).topic == c.topic && DataOf(c).md5sum == c.md5sum
  {
  }

  /** What the written files bring is quiet, and is what was written. */
  lemma WrittenEvents(bs: seq<WrittenBag>, names: seq<string>, unpack: Unpacker, log: Log)
    requires AllWritten(bs) && forall x :: log(x) == RecordsIn(bs, unpack, x)
    ensures forall i :: 0 <= i < |bs| ==>
      Describes(FilesOf(bs)[i], LayoutsOf(bs)[i]) && EndToEnd.Holding(LayoutsOf(bs)[i], names, unpack, log)
    ensures AllSupported(LayoutsOf(bs))
    ensures
      var es := FileEvents(LayoutsOf(bs), names, unpack, log);
      Deliveries(es) == WrittenStreams(bs, names) && forall i :: 0 <= i < |bs| ==> Throw !in es[i]
  {
    hide Fits, Listed, Scannable, LayoutOf, FileOf, Describes, EventsOf, SelectionOfLayout, Keep, MessagesIn, IdsOn,
      HoldsMessages, RecordsIn, BeforeThrow, AllReadable, DeliverAll, ChunksOf, Supported;
    forall i: nat | i < |bs|
      ensures Describes(FileOf(bs[i]), LayoutOf(bs[i]))
      ensures AllReadable(SelectionOfLayout(LayoutOf(bs[i]), names, unpack).chunks, log)
      ensures
        var es := EventsOf(SelectionOfLayout(LayoutOf(bs[i]), names, unpack), log);
        BeforeThrow(es) == Keep(MessagesIn(bs[i].chunks), IdsOn(bs[i], names)) && Throw !in es
    {
      WrittenIsDescribed(bs[i]);
      RecordsAreWritten(bs, unpack, log, i);
      WrittenComesBack(bs[i], names, unpack, log);
      NothingThrown(Keep(MessagesIn(bs[i].chunks), IdsOn(bs[i], names)));
      NoThrows(Keep(MessagesIn(bs[i].chunks), IdsOn(bs[i], names)));
    }
    forall i: nat, j: nat | i < |bs| && j < |LayoutOf(bs[i]).chunks|
      ensures Supported(LayoutOf(bs[i]).chunks[j].chunk)
    {
      WrittenIsSupported(bs[i], j, unpack);
    }
  }

  lemma NoThrows(ms: seq<Msg>)
    ensures Throw !in DeliverAll(ms)
  {
  }

  lemma WrittenIsSupported(b: WrittenBag, j: nat, unpack: Unpacker)
    requires Fits(b) && j < |LayoutOf(b).chunks|
    ensures Supported(LayoutOf(b).chunks[j].chunk)
  {
    hide Fits, ChunkOf, IndexPos, BagHeader, Supported, ChunkRecord, Readable;
    WrittenChunkAt(b, j, unpack);
  }

  lemma ReadIsWritten(out: seq<RosMessage>, stop: Stop, picks: seq<nat>, left: EventStreams, es: EventStreams,
        bags: seq<Bag>, bs: seq<WrittenBag>, names: seq<string>, grammar: Grammar)
    requires AllWritten(bs) && Delivered(out, stop, picks, left, es, bags) && Opened(bags, LayoutsOf(bs), grammar)
    requires |es| == |bs| && Deliveries(es) == WrittenStreams(bs, names)
    requires forall i :: 0 <= i < |bs| ==> Throw !in es[i]
    ensures !stop.Thrown? && |out| == |picks| == |Output(WrittenStreams(bs, names), picks)|
    ensures Run(WrittenStreams(bs, names), picks, Deliveries(left))
    ensures stop.Ended? ==> FullRun(WrittenStreams(bs, names), picks)
    ensures forall i :: 0 <= i < |out| ==>
      picks[i] < |bs| && IsWritten(out[i], Output(WrittenStreams(bs, names), picks)[i], bs[picks[i]])
  {
    hide Fits, Listed, Scannable, LayoutOf, Keep, MessagesIn, Output, Run, Reaches, Delivers, Loaded, IsWritten,
      Finished, Quiet, NoDefinition, CanTake, BeforeThrow, Deliveries, FullRun, IdsOn;
    var ms: Streams := WrittenStreams(bs, names);
    ReachesIsRun(es, picks, left);
    NothingLeftThrows(es, picks, left);
    if stop.Ended? {
      FinishedIsFull(es, picks, left);
    }
    forall i: nat | i < |out|
      ensures picks[i] < |bs| && IsWritten(out[i], Output(ms, picks)[i], bs[picks[i]])
    {
      OutputIsPicked(ms, picks, Deliveries(left), i);
      var b, m := bs[picks[i]], Output(ms, picks)[i];
      KeptAreSelected(MessagesIn(b.chunks), IdsOn(b, names));
      IdsHaveTopics(b, names, m.connectionId);
      DeliveredIsWritten(out[i], m, bags[picks[i]], b);
    }
  }

  lemma IdsHaveTopics(b: WrittenBag, names: seq<string>, c: nat)
    requires c in IdsOn(b, names)
    ensures c < |b.connections| && b.connections[c].topic != ""
  {
  }

  lemma NothingLeftThrows(es: EventStreams, picks: seq<nat>, left: EventStreams)
    requires Reaches(es, picks, left) && forall i :: 0 <= i < |es| ==> Throw !in es[i]
    ensures Quiet(left)
  {
    hide Reaches;
    forall j: nat | j < |es|
      ensures |left| == |es| && Throw !in left[j]
    {
      ThrowsAreLeft(es, picks, left, j);
    }
    if es == [] {
      NoStreams(es, picks, left);
    } else {
      ThrowsAreLeft(es, picks, left, 0);
    }
    forall j | 0 <= j < |left|
      ensures Deliverable(left[j])
    {
      if left[j] != [] {
        assert left[j][0] in left[j];
      }
    }
  }

  lemma NoStreams(es: EventStreams, picks: seq<nat>, left: EventStreams)
    requires Reaches(es, picks, left) && es == []
    ensures left == []
  {
  }

  /** Write bag files and read them back: a query for some topics over the files delivers the messages that were written
      on these topics, as a merge by timestamp of what was written in each file, each with the topic and checksum of its
      connection, its time and its bytes.  Nothing throws; when the loop ends, every one of them has been delivered. */
  method WriteAndRead(bs: seq<WrittenBag>, names: seq<string>, unpack: Unpacker, grammar: Grammar)
    returns (out: seq<RosMessage>, stop: Stop, ghost picks: seq<nat>, ghost left: Streams)
    requires AllWritten(bs)
    ensures fresh(out) && !stop.Thrown? && |out| == |picks| == |Output(WrittenStreams(bs, names), picks)|
    ensures Run(WrittenStreams(bs, names), picks, left)
    ensures stop.Ended? ==> FullRun(WrittenStreams(bs, names), picks)
    ensures forall i :: 0 <= i < |out| ==>
      picks[i] < |bs| && IsWritten(out[i], Output(WrittenStreams(bs, names), picks)[i], bs[picks[i]])
  {
    hide AllWritten, LayoutOf, FileOf, Describes, EndToEnd.Holding, Deliveries, Delivered, Opened, AllSupported,
      WrittenStreams, FileEvents, IsWritten, Output, Run, FullRun;
    ghost var log: Log := x => RecordsIn(bs, unpack, x);
    ghost var ls := LayoutsOf(bs);
    ghost var es := FileEvents(ls, names, unpack, log);
    WrittenEvents(bs, names, unpack, log);
    var query;
    ghost var rest;
    query, stop, picks, rest := QueryFiles(FilesOf(bs), names, unpack, grammar, ls, log);
    out := query.value.0;
    left := Deliveries(rest);
    ReadIsWritten(out, stop, picks, rest, es, query.value.1, bs, names, grammar);
  }
}
