/**
 * From the bytes of bag files to decoded messages: opening the bags, querying them by topic and decoding what comes,
 * with the outcome described by the records of the files alone.
 */
module EndToEnd {
  import opened Wrappers
  import opened Bytes
  import opened MsgTypes
  import opened RosValues
  import opened Wire
  import Access
  import opened BagTypes
  import opened BagIndex
  import opened Merge
  import opened Runs
  import opened Scan
  import opened Bags
  import opened Messages
  import opened Views
  import opened Selecting
  import opened Queries

  // ---------- The index of a file and the chunks behind it ----------

  /** An INDEX_DATA record behind chunk i names connection c. */
  predicate IndexNames(all: seq<seq<IndexEntry>>, i: nat, c: nat) {
    i < |all| && exists j :: 0 <= j < |all[i]| && all[i][j].conn == c
  }

  /** The INDEX_DATA behind every chunk with a message on one of the connections names one of them. */
  ghost predicate RecordsComplete(all: seq<seq<IndexEntry>>, chunks: seq<Chunk>, log: Log, ids: set<nat>) {
    forall i :: 0 <= i < |chunks| && HasMessage(log(chunks[i]), ids) ==> exists c :: c in ids && IndexNames(all, i, c)
  }

  lemma BlocksOfTable(es: seq<ConnectionEntry>, n: nat, all: seq<seq<IndexEntry>>, c: nat)
    requires IdsInRange(es, n) && AllInTable(all, n) && c < n
    ensures AddChunks(Table(es, n), all)[c].blocks == BlocksFor(all, c)
    ensures forall b :: b in BlocksFor(all, c) ==> IndexNames(all, b.intoChunk, c)
    ensures forall i: nat :: IndexNames(all, i, c) ==> IndexBlock(i) in BlocksFor(all, c)
  {
    hide BlocksFor, AddChunks, Table, CountFor;
    TableHoldsEntries(es, n, c);
    ChunksOfConnection(Table(es, n), all, c);
    BlocksForMeaning(all, c, 0);
    forall i: nat
      ensures IndexBlock(i) in BlocksFor(all, c) <==> IndexNames(all, i, c)
    {
      BlocksForMeaning(all, c, i);
    }
    forall b | b in BlocksFor(all, c)
      ensures IndexNames(all, b.intoChunk, c)
    {
      assert b == IndexBlock(b.intoChunk);
    }
  }

  /** What readRecords builds is a good index. */
  lemma ReadIndexIsGood(es: seq<ConnectionEntry>, n: nat, all: seq<seq<IndexEntry>>, chunks: seq<Chunk>)
    requires IdsInRange(es, n) && AllInTable(all, n) && |chunks| == |all|
    ensures GoodIndex(AddChunks(Table(es, n), all), Topics(es), chunks)
  {
    hide AddChunks, Table, Topics, BlocksFor, IndexNames, IdsInRange, AllInTable;
    var table := AddChunks(Table(es, n), all);
    forall c | 0 <= c < n
      ensures BlocksInside(table[c].blocks, |chunks|)
    {
      BlocksOfTable(es, n, all, c);
      NamedChunksExist(all, c);
    }
    forall t | t in Topics(es)
      ensures KnowNumbers(Topics(es)[t], table)
    {
      forall i | 0 <= i < |Topics(es)[t]|
        ensures Topics(es)[t][i] < n && table[Topics(es)[t][i]].id == Topics(es)[t][i]
      {
        LeadsToEntry(es, n, t, Topics(es)[t][i]);
        ChunksOfConnection(Table(es, n), all, Topics(es)[t][i]);
      }
    }
  }

  /** It is complete for some connections iff the INDEX_DATA records of the file are. */
  lemma ReadIndexIsComplete(es: seq<ConnectionEntry>, n: nat, all: seq<seq<IndexEntry>>, chunks: seq<Chunk>, log: Log,
        ids: set<nat>)
    requires IdsInRange(es, n) && AllInTable(all, n) && |chunks| == |all|
    ensures IndexComplete(AddChunks(Table(es, n), all), chunks, log, ids) <==> RecordsComplete(all, chunks, log, ids)
  {
    hide AddChunks, Table, IdsInRange, HasMessage, BlocksFor;
    var table := AddChunks(Table(es, n), all);
    forall i: nat
      ensures Indexed(table, ids, i) <==> exists c :: c in ids && IndexNames(all, i, c)
    {
      forall c: nat | c < n
        ensures IndexBlock(i) in table[c].blocks <==> IndexNames(all, i, c)
      {
        BlocksOfTable(es, n, all, c);
        if IndexBlock(i) in table[c].blocks {
          assert IndexNames(all, IndexBlock(i).intoChunk, c);
        }
      }
      forall c: nat | IndexNames(all, i, c)
        ensures c < n
      {
        NamedIsInTable(all, i, c, n);
      }
    }
  }

  lemma NamedIsInTable(all: seq<seq<IndexEntry>>, i: nat, c: nat, n: nat)
    requires AllInTable(all, n) && IndexNames(all, i, c)
    ensures c < n
  {
    assert InTable(all[i], n);
  }

  lemma NamedChunksExist(all: seq<seq<IndexEntry>>, c: nat)
    ensures forall i: nat :: IndexNames(all, i, c) ==> i < |all|
  {
  }

  // ---------- Layouts ----------

  /** The parts of a complete file fit together. */
  predicate Coherent(l: BagLayout) {
    && |l.bodies| == |l.connections| && |l.infos| == |l.chunks|
    && IdsInRange(Entries(l), |l.connections|) && AllInTable(AllIndexes(l.chunks), |l.connections|)
  }

  function IndexTable(l: BagLayout): Connections
    requires Coherent(l)
  {
    AddChunks(Table(Entries(l), |l.connections|), AllIndexes(l.chunks))
  }

  /** The connection numbers of the CONNECTION records on some topics. */
  function IdsOfLayout(l: BagLayout, names: seq<string>): set<nat>
    requires |l.bodies| == |l.connections|
  {
    set e | e in Entries(l) && e.Topic() != "" && e.Topic() in names :: e.Id()
  }

  /** The messages of a file on some topics. */
  ghost function StreamOfLayout(l: BagLayout, names: seq<string>, unpack: Unpacker, log: Log): seq<Msg>
    requires Coherent(l)
  {
    Keep(Flat(Logs(AllChunks(ChunksOf(l, unpack)), log)), IdsOfLayout(l, names))
  }

  /** The chunks and connections that the index of a file gives for some topics. */
  ghost function SelectionOfLayout(l: BagLayout, names: seq<string>, unpack: Unpacker): Selection {
    if Coherent(l) then
      ReadIndexIsGood(Entries(l), |l.connections|, AllIndexes(l.chunks), ChunksOf(l, unpack));
      Selecting.Select(names, IndexTable(l), Topics(Entries(l)), ChunksOf(l, unpack))
    else Selection([], {})
  }

  ghost function FileEvents(ls: seq<BagLayout>, names: seq<string>, unpack: Unpacker, log: Log): (es: EventStreams)
    ensures |es| == |ls| && forall i :: 0 <= i < |ls| ==>
      es[i] == EventsOf(SelectionOfLayout(ls[i], names, unpack), log)
  {
    seq(|ls|, i requires 0 <= i < |ls| => EventsOf(SelectionOfLayout(ls[i], names, unpack), log))
  }

  /** The tables of a bag are those of the layout. */
  ghost predicate Loaded(bag: Bag, l: BagLayout)
    reads bag`connections, bag`topicConnectionMap, bag`chunks
  {
    && Coherent(l)
    && bag.connections == IndexTable(l) && bag.topicConnectionMap == Topics(Entries(l))
    && bag.chunks == ChunksOf(l, bag.unpack)
  }

  lemma DescribedIsCoherent(file: seq<byte>, l: BagLayout)
    requires Describes(file, l)
    ensures Coherent(l)
  {
    hide IdsInRange, AllInTable, GoodConnection, GoodChunk;
  }

  lemma TopicIdsOfLayout(l: BagLayout, names: seq<string>)
    requires Coherent(l)
    ensures IdsOfTopics(names, Topics(Entries(l))) == IdsOfLayout(l, names)
  {
    hide ConnectionEntry.Id, ConnectionEntry.Topic, Topics, IdsOf;
    var es := Entries(l);
    forall c
      ensures c in IdsOfTopics(names, Topics(es)) <==> c in IdsOfLayout(l, names)
    {
      if c in IdsOfTopics(names, Topics(es)) {
        var t :| t in names && t in Topics(es) && c in Topics(es)[t];
        TopicsListIds(es, t);
        IdsOfMeaning(es, t, c);
        var i: nat :| Carries(es, i, t, c);
        assert es[i] in es;
      }
      if c in IdsOfLayout(l, names) {
        var e :| e in es && e.Topic() != "" && e.Topic() in names && c == e.Id();
        var i: nat :| i < |es| && es[i] == e;
        assert Carries(es, i, e.Topic(), c);
        IdsOfMeaning(es, e.Topic(), c);
        TopicsListIds(es, e.Topic());
      }
    }
  }

  /** A bag read from a file has the index of the file. */
  lemma LoadedIsIndexable(bag: Bag, l: BagLayout, names: seq<string>)
    requires Loaded(bag, l)
    ensures Indexable(bag) && SelectionOf(bag, names) == SelectionOfLayout(l, names, bag.unpack)
  {
    hide Table, AddChunks, Topics, ChunkOf, IdsInRange, AllInTable, GoodIndex, Selecting.Select;
    ReadIndexIsGood(Entries(l), |l.connections|, AllIndexes(l.chunks), ChunksOf(l, bag.unpack));
  }

  /** What the scan of the chunks that a file's index gives for some topics brings is the beginning of what the file
      holds on them, when its INDEX_DATA records are complete for the topics; and all of it iff those chunks can be
      scanned to their end. */
  lemma FileEventsMeaning(l: BagLayout, names: seq<string>, unpack: Unpacker, log: Log)
    requires Coherent(l) && DistinctOffsets(ChunksOf(l, unpack))
    requires RecordsComplete(AllIndexes(l.chunks), ChunksOf(l, unpack), log, IdsOfLayout(l, names))
    ensures
      var s, es := SelectionOfLayout(l, names, unpack), EventsOf(SelectionOfLayout(l, names, unpack), log);
      && BeforeThrow(es) <= StreamOfLayout(l, names, unpack, log)
      && (Throw !in es <==> Clean(Logs(s.chunks, log)))
      && (Clean(Logs(s.chunks, log)) ==> es == DeliverAll(StreamOfLayout(l, names, unpack, log)))
  {
    hide Table, AddChunks, Topics, ChunkOf, IdsInRange, AllInTable, GoodIndex, Selecting.Select, IdsOfLayout,
      IdsOfTopics, DistinctOffsets, RecordsComplete, IndexComplete, NextChunk, BeforeThrow, Flat, Logs, Keep,
      AllChunks, Clean;
    var es, n, all, chunks := Entries(l), |l.connections|, AllIndexes(l.chunks), ChunksOf(l, unpack);
    var s := SelectionOfLayout(l, names, unpack);
    ReadIndexIsGood(es, n, all, chunks);
    ReadIndexIsComplete(es, n, all, chunks, log, IdsOfLayout(l, names));
    TopicIdsOfLayout(l, names);
    SelectIds(names, IndexTable(l), Topics(es), chunks);
    SelectionLosesNothing(names, IndexTable(l), Topics(es), chunks, log);
    NextChunkMeaning(Logs(s.chunks, log), s.ids);
    NextChunkPrefix(Logs(s.chunks, log), s.ids);
  }

  // ---------- Opening ----------

  /** Opening a bag: the constructor of Bag once the file is mapped and its first line has been checked. */
  method OpenBag(file: seq<byte>, unpack: Unpacker, grammar: Grammar, ghost l: BagLayout)
    returns (r: Result<Bag, BagError>)
    requires Describes(file, l)
    ensures r.Ok? <==> forall i :: 0 <= i < |l.chunks| ==> Supported(l.chunks[i].chunk)
    ensures r.Ok? ==>
      && fresh(r.value) && r.value.unpack == unpack && r.value.grammar == grammar
      && Loaded(r.value, l) && r.value.messageSchemata == map[]
  {
    hide Describes, Supported, AddChunks, Table, Topics, ChunksOf;
    DescribedIsCoherent(file, l);
    var bag := new Bag(unpack, grammar);
    var read := bag.ReadRecords(file, l);
    if read.Err? {
      return Err(read.error);
    }
    r := Ok(bag);
  }

  /** Every chunk of every file has a supported compression. */
  predicate AllSupported(ls: seq<BagLayout>) {
    forall i, j :: 0 <= i < |ls| && 0 <= j < |ls[i].chunks| ==> Supported(ls[i].chunks[j].chunk)
  }

  /** Bag i has the tables of file i and an empty memo. */
  ghost predicate AllLoaded(bags: seq<Bag>, ls: seq<BagLayout>, unpack: Unpacker)
    reads bags
  {
    |bags| == |ls| && forall i :: 0 <= i < |bags| ==>
      Loaded(bags[i], ls[i]) && bags[i].unpack == unpack && bags[i].messageSchemata == map[]
  }

  /** Bag i has the tables of file i and its definitions come from the grammar. */
  ghost predicate Opened(bags: seq<Bag>, ls: seq<BagLayout>, grammar: Grammar)
    reads bags`connections, bags`topicConnectionMap, bags`chunks
  {
    |bags| == |ls| && forall i :: 0 <= i < |bags| ==> Loaded(bags[i], ls[i]) && bags[i].grammar == grammar
  }

  /** One addBag per file. */
  method OpenView(files: seq<seq<byte>>, unpack: Unpacker, grammar: Grammar, ghost ls: seq<BagLayout>)
    returns (r: Result<View, BagError>)
    requires |files| == |ls| && forall i :: 0 <= i < |files| ==> Describes(files[i], ls[i])
    ensures r.Ok? <==> AllSupported(ls)
    ensures r.Ok? ==>
      && fresh(r.value) && fresh(r.value.bags) && AllLoaded(r.value.bags, ls, unpack)
      && Opened(r.value.bags, ls, grammar)
      && forall i, j :: 0 <= i < j < |ls| ==> r.value.bags[i] != r.value.bags[j]
  {
    hide Describes, Supported, Loaded, Coherent;
    var view := new View();
    for i := 0 to |files|
      invariant |view.bags| == i && fresh(view.bags)
      invariant forall j :: 0 <= j < i ==>
        && Loaded(view.bags[j], ls[j]) && view.bags[j].unpack == unpack && view.bags[j].grammar == grammar
        && view.bags[j].messageSchemata == map[]
      invariant forall j, k :: 0 <= j < i && 0 <= k < |ls[j].chunks| ==> Supported(ls[j].chunks[k].chunk)
      invariant forall j, k :: 0 <= j < k < i ==> view.bags[j] != view.bags[k]
    {
      var loading := OpenBag(files[i], unpack, grammar, ls[i]);
      if loading.Err? {
        return Err(loading.error);
      }
      view.AddBag(loading.value);
    }
    r := Ok(view);
  }

  /** The chunks of a file that are selected for some topics hold what log says. */
  ghost predicate Holding(l: BagLayout, names: seq<string>, unpack: Unpacker, log: Log) {
    AllReadable(SelectionOfLayout(l, names, unpack).chunks, log)
  }

  lemma {:induction false} DifferentAreOnce(bags: seq<Bag>)
    requires forall i, j :: 0 <= i < j < |bags| ==> bags[i] != bags[j]
    ensures Once(bags) == bags
  {
    if bags != [] {
      var n := |bags| - 1;
      var before := bags[..n];
      assert forall i :: 0 <= i < n ==> before[i] == bags[i];
      DifferentAreOnce(before);
      assert bags[n] !in before;
      assert Once(bags) == before + [bags[n]] == bags;
    }
  }

  lemma AllAreIndexable(bags: seq<Bag>, ls: seq<BagLayout>, names: seq<string>, unpack: Unpacker, log: Log)
    requires AllLoaded(bags, ls, unpack) && forall i :: 0 <= i < |ls| ==> Holding(ls[i], names, unpack, log)
    ensures forall b :: b in bags ==> Indexable(b) && AllReadable(SelectionOf(b, names).chunks, log) && b.Memo()
    ensures TopicEvents(bags, names, log) == FileEvents(ls, names, unpack, log)
  {
    hide Coherent, AllReadable, Indexable, SelectionOf, SelectionOfLayout, EventsOf, IndexTable, ChunksOf, Topics;
    forall i | 0 <= i < |bags|
      ensures Indexable(bags[i]) && AllReadable(SelectionOf(bags[i], names).chunks, log) && bags[i].Memo()
      ensures SelectionOf(bags[i], names) == SelectionOfLayout(ls[i], names, unpack)
    {
      assert Holding(ls[i], names, unpack, log);
      LoadedIsIndexable(bags[i], ls[i], names);
    }
  }

  /** Open files, ask for some topics, loop over the messages: what comes is a merge by timestamp of what the scans of
      the files bring on these topics. */
  method QueryFiles(files: seq<seq<byte>>, names: seq<string>, unpack: Unpacker, grammar: Grammar,
        ghost ls: seq<BagLayout>, ghost log: Log)
    returns (r: Result<(seq<RosMessage>, seq<Bag>), BagError>, stop: Stop, ghost picks: seq<nat>,
      ghost left: EventStreams)
    requires |files| == |ls| && forall i :: 0 <= i < |files| ==> Describes(files[i], ls[i])
    requires forall i :: 0 <= i < |ls| ==> Holding(ls[i], names, unpack, log)
    ensures r.Ok? <==> AllSupported(ls)
    ensures r.Ok? ==> fresh(r.value.0) && Opened(r.value.1, ls, grammar)
    ensures r.Ok? ==> Delivered(r.value.0, stop, picks, left, FileEvents(ls, names, unpack, log), r.value.1)
  {
    hide Describes, Coherent, Holding, Loaded, AllSupported, Indexable, AllReadable, Delivered, FileEvents,
      TopicEvents, Bag.Memo, Once;
    stop, picks, left := Ended, [], [];
    var loading := OpenView(files, unpack, grammar, ls);
    if loading.Err? {
      return Err(loading.error), stop, picks, left;
    }
    var view := loading.value;
    var bags := view.bags;
    AllAreIndexable(bags, ls, names, unpack, log);
    DifferentAreOnce(bags);
    var out;
    out, stop, picks, left := Query(view, names, log);
    r := Ok((out, bags));
  }

  // ---------- Decoding what was delivered ----------

  /** A delivered message whose bytes are the serialization of a value under the definition of its topic holds that
      value. */
  lemma DeliveredEncodes(r: RosMessage, m: Msg, bag: Bag, vs: seq<Value>)
    requires Delivers(r, m, bag) && bag.TopicDefinition(r.topic).Some?
    requires
      var (root, definitions) := bag.TopicDefinition(r.topic).value;
      AdmitsAll(definitions, Fields(root.members), vs) && SerAll(definitions, Fields(root.members), vs) == m.data
    ensures r.Valid() && r.Encodes(vs)
  {
    hide AdmitsAll, SerAll, Bag.TopicDefinition, RosMessage.Valid;
    assert r.RawData() == r.rawBuffer[..][r.rawBufferOffset..r.rawBufferOffset + r.rawDataLen];
  }

  /** The pointers read back as the values. */
  ghost predicate Decoded(out: seq<RosMessage>, ps: seq<Pointer>, values: seq<seq<Value>>)
    reads out, set r | r in out :: r.rawBuffer
  {
    |ps| == |out| == |values| && forall i :: 0 <= i < |out| ==>
      Access.ReadPointer(out[i].arena, out[i].rawBuffer[..], ps[i]) == Ok(Value.Record(values[i]))
  }

  /** data() of every delivered message, after the loop: each reads back as its value. */
  method DecodeAll(out: seq<RosMessage>, ghost values: seq<seq<Value>>) returns (ps: seq<Pointer>)
    requires |values| == |out| && forall i :: 0 <= i < |out| ==> out[i].Valid() && out[i].Encodes(values[i])
    modifies out
    ensures Decoded(out, ps, values) && forall i :: 0 <= i < |out| ==> out[i].Valid()
  {
    hide Access.ReadPointer, RosMessage.Encodes, RosMessage.Valid;
    ps := [];
    for i := 0 to |out|
      invariant |ps| == i
      invariant forall j :: 0 <= j < |out| ==> out[j].Valid() && out[j].Encodes(values[j])
      invariant forall j :: 0 <= j < i ==>
        out[j].parsed && Access.ReadPointer(out[j].arena, out[j].rawBuffer[..], ps[j]) == Ok(Value.Record(values[j]))
    {
      var p := out[i].Data(values[i]);
      ps := ps + [p];
    }
  }

  /** The definition that messages on connection c of a file are decoded with. */
  ghost function DefinitionIn(l: BagLayout, grammar: Grammar, c: nat): Option<(BaseDef, Definitions)> {
    if !Coherent(l) || c >= |l.connections| then None else
      var table, topics := IndexTable(l), Topics(Entries(l));
      var topic := table[c].topic;
      if topic in topics && topics[topic] != [] && topics[topic][0] < |table|
      then DefinitionUnder(grammar, table[topics[topic][0]].data) else None
  }

  /** The bytes of a message of a file are the serialization of a value. */
  ghost predicate Means(l: BagLayout, grammar: Grammar, m: Msg, vs: seq<Value>) {
    match DefinitionIn(l, grammar, m.connectionId)
    case None => false
    case Some((root, definitions)) =>
      AdmitsAll(definitions, Fields(root.members), vs) && SerAll(definitions, Fields(root.members), vs) == m.data
  }

  /** What a message of file i means. */
  type Meaning = (nat, Msg) -> seq<Value>

  /** Every message that the streams can deliver serializes its meaning. */
  ghost predicate AllMean(ls: seq<BagLayout>, grammar: Grammar, es: EventStreams, meaning: Meaning)
    requires |es| == |ls|
  {
    forall i, m :: 0 <= i < |ls| && m in Deliveries(es)[i] ==> Means(ls[i], grammar, m, meaning(i, m))
  }

  function MeaningsOf(ms: seq<Msg>, picks: seq<nat>, meaning: Meaning): seq<seq<Value>>
    requires |ms| == |picks|
  {
    seq(|ms|, i requires 0 <= i < |ms| => meaning(picks[i], ms[i]))
  }

  lemma LoadedDefinition(bag: Bag, l: BagLayout, c: nat)
    requires Loaded(bag, l) && c < |bag.connections|
    ensures bag.TopicDefinition(bag.connections[c].topic) == DefinitionIn(l, bag.grammar, c)
  {
    hide Table, AddChunks, Topics, ChunksOf, IdsInRange, AllInTable, DefinitionUnder;
  }

  lemma OneEncodes(r: RosMessage, m: Msg, bag: Bag, l: BagLayout, vs: seq<Value>)
    requires Delivers(r, m, bag) && Loaded(bag, l) && Means(l, bag.grammar, m, vs)
    ensures r.Valid() && r.Encodes(vs)
  {
    hide AdmitsAll, SerAll, DefinitionIn, Coherent, IndexTable, RosMessage.Encodes, Bag.TopicDefinition,
      RosMessage.Valid;
    LoadedDefinition(bag, l, m.connectionId);
    DeliveredEncodes(r, m, bag, vs);
  }

  /** All that was delivered holds what it means, and no topic was without a definition. */
  lemma AllEncode(out: seq<RosMessage>, stop: Stop, picks: seq<nat>, left: EventStreams, es: EventStreams,
        bags: seq<Bag>, ls: seq<BagLayout>, grammar: Grammar, meaning: Meaning)
    requires Delivered(out, stop, picks, left, es, bags) && Opened(bags, ls, grammar)
    requires |es| == |ls| && AllMean(ls, grammar, es, meaning)
    ensures !stop.Failed? && |out| == |picks| == |Output(Deliveries(es), picks)|
    ensures forall i :: 0 <= i < |out| ==>
      out[i].Valid() && out[i].Encodes(MeaningsOf(Output(Deliveries(es), picks), picks, meaning)[i])
  {
    hide Output, Deliveries, Reaches, Run, Quiet, Finished, Coherent, Loaded, Means, Delivers, RosMessage.Valid,
      RosMessage.Encodes, NoDefinition;
    var ms := Deliveries(es);
    DeliveriesLength(es);
    ReachesIsRun(es, picks, left);
    forall i: nat | i < |out|
      ensures out[i].Valid() && out[i].Encodes(meaning(picks[i], Output(ms, picks)[i]))
    {
      OutputIsPicked(ms, picks, Deliveries(left), i);
      OneEncodes(out[i], Output(ms, picks)[i], bags[picks[i]], ls[picks[i]], meaning(picks[i], Output(ms, picks)[i]));
    }
    if stop.Failed? {
      var k: nat :| CanTake(Deliveries(left), k) && k < |bags| && NoDefinition(bags[k], Deliveries(left)[k][0]);
      RunInterleaves(ms, picks, Deliveries(left), k);
      HeadIsThere(Deliveries(left), k);
      var m := Deliveries(left)[k][0];
      assert m in ms[k];
      MeansHasDefinition(bags[k], ls[k], m, meaning(k, m));
    }
  }

  lemma MeansHasDefinition(bag: Bag, l: BagLayout, m: Msg, vs: seq<Value>)
    requires Loaded(bag, l) && Means(l, bag.grammar, m, vs)
    ensures !NoDefinition(bag, m)
  {
    hide AdmitsAll, SerAll, DefinitionIn, Coherent, IndexTable, Bag.TopicDefinition;
    if m.connectionId < |bag.connections| {
      LoadedDefinition(bag, l, m.connectionId);
    }
  }

  /** From the bytes of files to decoded messages: open the files, ask for some topics, loop over the messages, and
      decode them when the loop is over.  The messages are a merge by timestamp of what the scans of the files bring on
      these topics, and each reads back as what its bytes mean. */
  method DecodeFiles(files: seq<seq<byte>>, names: seq<string>, unpack: Unpacker, grammar: Grammar,
        ghost ls: seq<BagLayout>, ghost log: Log, ghost meaning: Meaning)
    returns (r: Result<(seq<RosMessage>, seq<Pointer>, seq<Bag>), BagError>, stop: Stop, ghost picks: seq<nat>,
      ghost left: EventStreams)
    requires |files| == |ls| && forall i :: 0 <= i < |files| ==> Describes(files[i], ls[i])
    requires forall i :: 0 <= i < |ls| ==> Holding(ls[i], names, unpack, log)
    requires AllMean(ls, grammar, FileEvents(ls, names, unpack, log), meaning)
    ensures r.Ok? <==> AllSupported(ls)
    ensures r.Ok? ==>
      var es := FileEvents(ls, names, unpack, log);
      && Opened(r.value.2, ls, grammar) && !stop.Failed?
      && Delivered(r.value.0, stop, picks, left, es, r.value.2)
      && Decoded(r.value.0, r.value.1, MeaningsOf(Output(Deliveries(es), picks), picks, meaning))
  {
    hide Describes, Coherent, Holding, AllSupported, FileEvents, Delivered, Output, Deliveries, AllMean, Opened,
      Decoded, RosMessage.Valid, RosMessage.Encodes;
    ghost var es := FileEvents(ls, names, unpack, log);
    var query;
    query, stop, picks, left := QueryFiles(files, names, unpack, grammar, ls, log);
    if query.Err? {
      return Err(query.error), stop, picks, left;
    }
    var out, bags := query.value.0, query.value.1;
    AllEncode(out, stop, picks, left, es, bags, ls, grammar, meaning);
    var ps := DecodeAll(out, MeaningsOf(Output(Deliveries(es), picks), picks, meaning));
    r := Ok((out, ps, bags));
  }
}
