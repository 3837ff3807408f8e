/** View::getMessages, and a whole topic query: what a user gets from iterating over getMessages(topics). */
module Queries {
  import opened Wrappers
  import opened RosTimes
  import opened BagTypes
  import opened Merge
  import opened Runs
  import opened Scan
  import opened Bags
  import opened Messages
  import opened Views
  import opened Selecting

  /** The loop over the blocks of one connection. */
  method EmplaceBlocks(w: BagWrapper, blocks: seq<IndexBlock>)
    requires BlocksInside(blocks, |w.bag.chunks|)
    modifies w`chunksToParse
    ensures w.chunksToParse == AddBlocks(old(w.chunksToParse), blocks, w.bag.chunks)
  {
    hide Emplace;
    ghost var start := w.chunksToParse;
    var chunks := w.bag.chunks;
    for i := 0 to |blocks|
      invariant BlocksInside(blocks[..i], |chunks|) && w.chunksToParse == AddBlocks(start, blocks[..i], chunks)
    {
      assert blocks[..i + 1][..i] == blocks[..i];
      w.chunksToParse := Emplace(w.chunksToParse, chunks[blocks[i].intoChunk]);
    }
    assert blocks[..|blocks|] == blocks;
  }

  /** The loop over the connections of one topic. */
  method EmplaceConnections(w: BagWrapper, cs: seq<nat>)
    requires ConnectionsInside(cs, w.bag.connections, |w.bag.chunks|)
    modifies w`chunksToParse, w`connectionIds
    ensures Selection(w.chunksToParse, w.connectionIds) ==
      AddConnections(old(Selection(w.chunksToParse, w.connectionIds)), cs, w.bag.connections, w.bag.chunks)
  {
    hide AddBlocks, BlocksInside;
    ghost var start := Selection(w.chunksToParse, w.connectionIds);
    var table, chunks := w.bag.connections, w.bag.chunks;
    for i := 0 to |cs|
      invariant ConnectionsInside(cs[..i], table, |chunks|)
      invariant Selection(w.chunksToParse, w.connectionIds) == AddConnections(start, cs[..i], table, chunks)
    {
      assert cs[..i + 1][..i] == cs[..i] && cs[..i + 1][i] == cs[i];
      EmplaceBlocks(w, table[cs[i]].blocks);
      w.connectionIds := w.connectionIds + {table[cs[i]].id};
    }
    assert cs[..|cs|] == cs;
  }

  ghost predicate Indexable(bag: Bag)
    reads bag`connections, bag`topicConnectionMap, bag`chunks
  {
    GoodIndex(bag.connections, bag.topicConnectionMap, bag.chunks)
  }

  /** What a bag is selected by. */
  ghost function SelectionOf(bag: Bag, names: seq<string>): Selection
    reads bag`connections, bag`topicConnectionMap, bag`chunks
  {
    if Indexable(bag) then Select(names, bag.connections, bag.topicConnectionMap, bag.chunks) else Selection([], {})
  }

  /** A new wrapper with the selection of its bag. */
  ghost predicate Selects(w: BagWrapper, bag: Bag, s: Selection, log: Log)
    reads w
  {
    w.bag == bag && w.log == log && w.Rewound() && w.chunkIter == 0 && Selection(w.chunksToParse, w.connectionIds) == s
  }

  /** The body of the loop over bags: a new wrapper, filled topic by topic. */
  method SelectBag(bag: Bag, names: seq<string>, ghost log: Log, ghost slot: nat) returns (w: BagWrapper)
    requires Indexable(bag)
    ensures fresh(w) && w.slot == slot && Selects(w, bag, SelectionOf(bag, names), log)
  {
    hide GoodIndex, AddConnections;
    w := new BagWrapper(bag, log, slot);
    for i := 0 to |names|
      invariant w.Rewound() && w.chunkIter == 0
      invariant Selection(w.chunksToParse, w.connectionIds) == SelectionOf(bag, names[..i])
    {
      assert names[..i + 1][..i] == names[..i];
      if names[i] in bag.topicConnectionMap {
        TopicsAreInside(bag.connections, bag.topicConnectionMap, bag.chunks, names[i]);
        EmplaceConnections(w, bag.topicConnectionMap[names[i]]);
      }
    }
    assert names[..|names|] == names;
  }

  /** The two loops of getMessages() for one bag: all chunks and all connection numbers. */
  method SelectAll(bag: Bag, ghost log: Log, ghost slot: nat) returns (w: BagWrapper)
    ensures fresh(w) && w.slot == slot && Selects(w, bag, EverythingOf(bag), log)
  {
    w := new BagWrapper(bag, log, slot);
    for i := 0 to |bag.chunks|
      invariant w.Rewound() && w.chunkIter == 0 && w.connectionIds == {}
      invariant w.chunksToParse == AllChunks(bag.chunks[..i])
    {
      assert bag.chunks[..i + 1][..i] == bag.chunks[..i];
      w.chunksToParse := Emplace(w.chunksToParse, bag.chunks[i]);
    }
    assert bag.chunks[..|bag.chunks|] == bag.chunks;
    for i := 0 to |bag.connections|
      invariant w.Rewound() && w.chunkIter == 0 && w.chunksToParse == AllChunks(bag.chunks)
      invariant w.connectionIds == AllIds(i)
    {
      w.connectionIds := w.connectionIds + {i};
    }
  }

  ghost function EverythingOf(bag: Bag): Selection
    reads bag`connections, bag`chunks
  {
    Selection(AllChunks(bag.chunks), AllIds(|bag.connections|))
  }

  // ---------- What a bag brings ----------

  /** The events of a scan over selected chunks. */
  ghost function EventsOf(s: Selection, log: Log): seq<Event> {
    NextChunk(Logs(s.chunks, log), s.ids)
  }

  /** The messages of a bag on some connections, with no index in sight: all chunks by offset, filtered. */
  ghost function StreamOn(bag: Bag, ids: set<nat>, log: Log): seq<Msg>
    reads bag`chunks
  {
    Keep(Flat(Logs(AllChunks(bag.chunks), log)), ids)
  }

  ghost function TopicStream(bag: Bag, names: seq<string>, log: Log): seq<Msg>
    reads bag`topicConnectionMap, bag`chunks
  {
    StreamOn(bag, IdsOfTopics(names, bag.topicConnectionMap), log)
  }

  ghost function WholeBag(bag: Bag, log: Log): seq<Msg>
    reads bag`connections, bag`chunks
  {
    StreamOn(bag, AllIds(|bag.connections|), log)
  }

  /** What the scan of the indexed chunks brings is the beginning of the messages of the bag on the topics, and all of
      them when the selected chunks can be scanned to their end. */
  lemma TopicEventsMeaning(bag: Bag, names: seq<string>, log: Log)
    requires Indexable(bag) && DistinctOffsets(bag.chunks)
    requires IndexComplete(bag.connections, bag.chunks, log, IdsOfTopics(names, bag.topicConnectionMap))
    ensures
      var s, es := SelectionOf(bag, names), EventsOf(SelectionOf(bag, names), log);
      && BeforeThrow(es) <= TopicStream(bag, names, log)
      && (Throw !in es <==> Clean(Logs(s.chunks, log)))
      && (Clean(Logs(s.chunks, log)) ==> es == DeliverAll(TopicStream(bag, names, log)))
  {
    hide Select, NextChunk, BeforeThrow, Flat, Logs, Keep, AllChunks, IndexComplete, IdsOfTopics, DistinctOffsets,
      Clean, GoodIndex;
    var s := SelectionOf(bag, names);
    SelectIds(names, bag.connections, bag.topicConnectionMap, bag.chunks);
    SelectionLosesNothing(names, bag.connections, bag.topicConnectionMap, bag.chunks, log);
    NextChunkMeaning(Logs(s.chunks, log), s.ids);
    NextChunkPrefix(Logs(s.chunks, log), s.ids);
  }

  lemma WholeEventsMeaning(bag: Bag, log: Log)
    ensures
      var es := EventsOf(EverythingOf(bag), log);
      && BeforeThrow(es) <= WholeBag(bag, log)
      && (Throw !in es <==> Clean(Logs(AllChunks(bag.chunks), log)))
      && (Clean(Logs(AllChunks(bag.chunks), log)) ==> es == DeliverAll(WholeBag(bag, log)))
  {
    hide NextChunk, BeforeThrow, Flat, Logs, Keep, AllChunks, Clean;
    NextChunkMeaning(Logs(AllChunks(bag.chunks), log), AllIds(|bag.connections|));
    NextChunkPrefix(Logs(AllChunks(bag.chunks), log), AllIds(|bag.connections|));
  }

  /** A new wrapper whose chunks hold what log says brings the events of its selection. */
  lemma SelectedIsFresh(w: BagWrapper, bag: Bag, s: Selection, log: Log)
    requires Selects(w, bag, s, log) && AllReadable(s.chunks, log)
    ensures Fresh(w, EventsOf(s, log))
  {
    hide NextChunk, Readable;
    RewoundIsFresh(w);
  }

  // ---------- The views ----------

  /** The bags of a list, each once. */
  function Once(bags: seq<Bag>): seq<Bag> {
    if bags == [] then [] else
      var before, last := Once(bags[..|bags| - 1]), bags[|bags| - 1];
      if last in before then before else before + [last]
  }

  lemma {:induction false} OnceMeaning(bags: seq<Bag>)
    ensures forall b :: b in Once(bags) <==> b in bags
    ensures forall i, j :: 0 <= i < j < |Once(bags)| ==> Once(bags)[i] != Once(bags)[j]
  {
    if bags != [] {
      OnceMeaning(bags[..|bags| - 1]);
      assert bags == bags[..|bags| - 1] + [bags[|bags| - 1]];
    }
  }

  /** bag_wrappers_[bag]: the entry of a bag in the map of wrappers, or a new one. */
  method SlotOf(ws: seq<BagWrapper>, bag: Bag) returns (k: nat)
    ensures k <= |ws| && (k < |ws| ==> ws[k].bag == bag)
    ensures k == |ws| ==> forall i :: 0 <= i < |ws| ==> ws[i].bag != bag
  {
    k := 0;
    while k < |ws| && ws[k].bag != bag
      invariant k <= |ws| && forall i :: 0 <= i < k ==> ws[i].bag != bag
    {
      k := k + 1;
    }
  }

  /** The wrapper takes the place of an earlier one of its bag, or a new place. */
  function Placed(ws: seq<BagWrapper>, k: nat, w: BagWrapper): (r: seq<BagWrapper>)
    requires k <= |ws|
    ensures |r| == (if k < |ws| then |ws| else |ws| + 1) && r[k] == w
    ensures forall i :: 0 <= i < |ws| && i != k ==> r[i] == ws[i]
  {
    if k < |ws| then ws[k := w] else ws + [w]
  }

  class View {
    var bags: seq<Bag>
    var bagWrappers: seq<BagWrapper>

    constructor ()
      ensures bags == [] && bagWrappers == []
    {
      bags, bagWrappers := [], [];
    }

    /** View::addBag. */
    method AddBag(bag: Bag)
      modifies this`bags
      ensures bags == old(bags) + [bag]
    {
      bags := bags + [bag];
    }

    /** View::getMessages(): one new wrapper per bag, with everything.  A bag that was added twice has one. */
    method GetAllMessages(ghost log: Log)
      modifies this`bagWrappers
      ensures fresh(bagWrappers) && |bagWrappers| == |Once(bags)| && Distinct(bagWrappers)
      ensures forall i :: 0 <= i < |bagWrappers| ==>
        Selects(bagWrappers[i], Once(bags)[i], EverythingOf(Once(bags)[i]), log)
    {
      hide Selects, EverythingOf, Placed;
      bagWrappers := [];
      for n := 0 to |bags|
        invariant fresh(bagWrappers) && |bagWrappers| == |Once(bags[..n])| && Distinct(bagWrappers)
        invariant forall i :: 0 <= i < |bagWrappers| ==>
          && bagWrappers[i].bag == Once(bags[..n])[i]
          && Selects(bagWrappers[i], Once(bags[..n])[i], EverythingOf(Once(bags[..n])[i]), log)
      {
        assert bags[..n + 1][..n] == bags[..n];
        OnceMeaning(bags[..n]);
        var k := SlotOf(bagWrappers, bags[n]);
        var w := SelectAll(bags[n], log, k);
        SelectsBag(w, bags[n], EverythingOf(bags[n]), log);
        bagWrappers := Placed(bagWrappers, k, w);
      }
      assert bags[..|bags|] == bags;
    }

    /** View::getMessages(topics): one new wrapper per bag, with its selection for the topics. */
    method GetMessages(names: seq<string>, ghost log: Log)
      requires forall b :: b in bags ==> Indexable(b)
      modifies this`bagWrappers
      ensures fresh(bagWrappers) && |bagWrappers| == |Once(bags)| && Distinct(bagWrappers)
      ensures forall i :: 0 <= i < |bagWrappers| ==>
        Selects(bagWrappers[i], Once(bags)[i], SelectionOf(Once(bags)[i], names), log)
    {
      hide Selects, SelectionOf, Indexable, Placed;
      bagWrappers := [];
      for n := 0 to |bags|
        invariant fresh(bagWrappers) && |bagWrappers| == |Once(bags[..n])| && Distinct(bagWrappers)
        invariant forall i :: 0 <= i < |bagWrappers| ==>
          && bagWrappers[i].bag == Once(bags[..n])[i]
          && Selects(bagWrappers[i], Once(bags[..n])[i], SelectionOf(Once(bags[..n])[i], names), log)
      {
        assert bags[..n + 1][..n] == bags[..n] && bags[n] in bags;
        OnceMeaning(bags[..n]);
        var k := SlotOf(bagWrappers, bags[n]);
        var w := SelectBag(bags[n], names, log, k);
        SelectsBag(w, bags[n], SelectionOf(bags[n], names), log);
        bagWrappers := Placed(bagWrappers, k, w);
      }
      assert bags[..|bags|] == bags;
    }
  }

  lemma SelectsBag(w: BagWrapper, bag: Bag, s: Selection, log: Log)
    requires Selects(w, bag, s, log)
    ensures w.bag == bag
  {
  }

  // ---------- Whole queries ----------

  ghost function TopicEvents(bags: seq<Bag>, names: seq<string>, log: Log): (es: EventStreams)
    reads bags`connections, bags`topicConnectionMap, bags`chunks
    ensures |es| == |bags| && forall i :: 0 <= i < |bags| ==> es[i] == EventsOf(SelectionOf(bags[i], names), log)
  {
    if bags == [] then [] else [EventsOf(SelectionOf(bags[0], names), log)] + TopicEvents(bags[1..], names, log)
  }

  ghost function WholeEvents(bags: seq<Bag>, log: Log): (es: EventStreams)
    reads bags`connections, bags`chunks
    ensures |es| == |bags| && forall i :: 0 <= i < |bags| ==> es[i] == EventsOf(EverythingOf(bags[i]), log)
  {
    if bags == [] then [] else [EventsOf(EverythingOf(bags[0]), log)] + WholeEvents(bags[1..], log)
  }

  lemma {:induction false} KeptAreSelected(ms: seq<Msg>, ids: set<nat>)
    ensures forall m :: m in Keep(ms, ids) ==> m.connectionId in ids
  {
    if ms != [] {
      KeptAreSelected(ms[1..], ids);
    }
  }

  lemma EventsAreSelected(s: Selection, log: Log)
    ensures forall m :: m in BeforeThrow(EventsOf(s, log)) ==> m.connectionId in s.ids
  {
    hide NextChunk, BeforeThrow, Flat, Logs, Keep;
    NextChunkPrefix(Logs(s.chunks, log), s.ids);
    KeptAreSelected(Flat(Logs(s.chunks, log)), s.ids);
  }

  lemma SelectedAreConnections(bag: Bag, names: seq<string>)
    ensures forall c :: c in SelectionOf(bag, names).ids ==> c < |bag.connections|
  {
    hide Select, GoodIndex;
    if Indexable(bag) {
      SelectIds(names, bag.connections, bag.topicConnectionMap, bag.chunks);
      forall c | c in IdsOfTopics(names, bag.topicConnectionMap)
        ensures c < |bag.connections|
      {
        var t :| t in names && t in bag.topicConnectionMap && c in bag.topicConnectionMap[t];
        TopicsAreInside(bag.connections, bag.topicConnectionMap, bag.chunks, t);
      }
    }
  }

  /** Every message is on a connection of its bag. */
  ghost predicate OnConnections(ms: Streams, bags: seq<Bag>)
    reads bags`connections
  {
    |ms| == |bags| && forall i, j :: 0 <= i < |ms| && 0 <= j < |ms[i]| ==> ms[i][j].connectionId < |bags[i].connections|
  }

  lemma TopicsOnConnections(bags: seq<Bag>, names: seq<string>, log: Log)
    ensures OnConnections(Deliveries(TopicEvents(bags, names, log)), bags)
  {
    hide SelectionOf, EventsOf, BeforeThrow;
    var es := TopicEvents(bags, names, log);
    forall i, j | 0 <= i < |bags| && 0 <= j < |BeforeThrow(es[i])|
      ensures BeforeThrow(es[i])[j].connectionId < |bags[i].connections|
    {
      EventsAreSelected(SelectionOf(bags[i], names), log);
      SelectedAreConnections(bags[i], names);
      assert BeforeThrow(es[i])[j] in BeforeThrow(es[i]);
    }
  }

  lemma AllOnConnections(bags: seq<Bag>, log: Log)
    ensures OnConnections(Deliveries(WholeEvents(bags, log)), bags)
  {
    hide EventsOf, BeforeThrow, AllChunks;
    var es := WholeEvents(bags, log);
    forall i, j | 0 <= i < |bags| && 0 <= j < |BeforeThrow(es[i])|
      ensures BeforeThrow(es[i])[j].connectionId < |bags[i].connections|
    {
      EventsAreSelected(EverythingOf(bags[i]), log);
      assert BeforeThrow(es[i])[j] in BeforeThrow(es[i]);
    }
  }

  lemma GoodIndexIsLinked(bag: Bag)
    requires Indexable(bag)
    ensures bag.Linked()
  {
    hide BlocksInside;
    forall t | t in bag.topicConnectionMap
      ensures KnowNumbers(bag.topicConnectionMap[t], bag.connections)
    {
    }
  }

  /** Wrappers that each bring their events promise them. */
  lemma WrappersPromise(it: Iterator, bags: seq<Bag>, es: EventStreams)
    requires |it.bagWrappers| == |bags| == |es| && Distinct(it.bagWrappers) && OnConnections(Deliveries(es), bags)
    requires forall i :: 0 <= i < |bags| ==> it.bagWrappers[i].bag == bags[i] && Fresh(it.bagWrappers[i], es[i])
    requires forall b :: b in bags ==> b.Linked() && b.Memo()
    ensures it.Promises(es) && it.BagsReady() && it.Known(Deliveries(es))
  {
    hide Fresh, Buffers, Bag.Linked, Bag.Memo, Deliveries;
    forall i | 0 <= i < |bags|
      ensures BagReady(it.bagWrappers[i].bag)
    {
      assert bags[i] in bags;
    }
  }

  /** The topic of a message has no definition. */
  ghost predicate NoDefinition(bag: Bag, m: Msg)
    reads bag`connections, bag`topicConnectionMap
  {
    m.connectionId < |bag.connections| && bag.TopicDefinition(bag.connections[m.connectionId].topic) == None
  }

  /** What a loop over a view has done: it delivered a merge by timestamp of one stream per bag, each message with the
      bytes, time, topic, checksum and definition of its connection, and left the streams left.  It ended with nothing
      left, or because a stream was about to throw, or at a message whose topic has no definition. */
  ghost predicate Delivered(out: seq<RosMessage>, stop: Stop, picks: seq<nat>, left: EventStreams, es: EventStreams,
        bags: seq<Bag>)
    reads *
  {
    && Reaches(es, picks, left) && |out| == |picks| == |Output(Deliveries(es), picks)|
    && (forall i :: 0 <= i < |out| ==>
      picks[i] < |bags| && Delivers(out[i], Output(Deliveries(es), picks)[i], bags[picks[i]]))
    && (stop.Ended? ==> Finished(left)) && (stop.Thrown? <==> !Quiet(left))
    && (stop.Failed? ==>
      exists k: nat :: CanTake(Deliveries(left), k) && k < |bags| && NoDefinition(bags[k], Deliveries(left)[k][0]))
  }

  lemma SomeUndefined(it: Iterator, bags: seq<Bag>, t: Streams, k: nat)
    requires |it.bagWrappers| == |bags| && forall i :: 0 <= i < |bags| ==> it.bagWrappers[i].bag == bags[i]
    requires CanTake(t, k) && it.Undefined(t, k)
    ensures k < |bags| && NoDefinition(bags[k], t[k][0])
  {
    hide Later, Bag.TopicDefinition;
  }

  /** The loop over the messages of a prepared view. */
  method Iterate(view: View, ghost bags: seq<Bag>, ghost es: EventStreams)
    returns (out: seq<RosMessage>, stop: Stop, ghost picks: seq<nat>, ghost left: EventStreams)
    requires |view.bagWrappers| == |bags| == |es| && Distinct(view.bagWrappers) && OnConnections(Deliveries(es), bags)
    requires forall i :: 0 <= i < |bags| ==> view.bagWrappers[i].bag == bags[i] && Fresh(view.bagWrappers[i], es[i])
    requires forall b :: b in bags ==> b.Linked() && b.Memo()
    modifies view.bagWrappers, bags`messageSchemata
    ensures fresh(out) && Delivered(out, stop, picks, left, es, bags)
  {
    hide Fresh, Delivers, BagReady, Output, Reaches, CanTake, Buffers, WholeStreams, OnConnections, Bag.Memo,
      Bag.Linked, NoDefinition, Quiet, Finished, Deliveries, Iterator.Undefined, Iterator.Known, Iterator.Promises,
      Iterator.BagsReady;
    var it := new Iterator(view.bagWrappers);
    WrappersPromise(it, bags, es);
    out, stop, picks, left := it.ForEach(es);
    FinishedIsQuiet(left);
    if stop.Failed? {
      ghost var k: nat :| CanTake(Deliveries(left), k) && it.Undefined(Deliveries(left), k);
      SomeUndefined(it, bags, Deliveries(left), k);
    }
  }

  lemma FinishedIsQuiet(left: EventStreams)
    ensures Finished(left) ==> Quiet(left)
  {
  }

  lemma SelectedAreFresh(ws: seq<BagWrapper>, bags: seq<Bag>, names: seq<string>, log: Log)
    requires |ws| == |bags| && forall b :: b in bags ==> Indexable(b) && AllReadable(SelectionOf(b, names).chunks, log)
    requires forall i :: 0 <= i < |ws| ==> Selects(ws[i], bags[i], SelectionOf(bags[i], names), log)
    ensures forall i :: 0 <= i < |ws| ==> ws[i].bag == bags[i] && Fresh(ws[i], TopicEvents(bags, names, log)[i])
    ensures forall b :: b in bags ==> b.Linked()
  {
    hide Indexable, AllReadable, Selects, SelectionOf, EventsOf, Fresh, Bag.Linked, TopicEvents;
    forall i | 0 <= i < |ws|
      ensures ws[i].bag == bags[i] && Fresh(ws[i], EventsOf(SelectionOf(bags[i], names), log))
    {
      assert bags[i] in bags;
      SelectsBag(ws[i], bags[i], SelectionOf(bags[i], names), log);
      SelectedIsFresh(ws[i], bags[i], SelectionOf(bags[i], names), log);
    }
    forall b | b in bags
      ensures b.Linked()
    {
      GoodIndexIsLinked(b);
    }
  }

  lemma AllAreFresh(ws: seq<BagWrapper>, bags: seq<Bag>, log: Log)
    requires |ws| == |bags| && forall b :: b in bags ==> AllReadable(EverythingOf(b).chunks, log)
    requires forall i :: 0 <= i < |ws| ==> Selects(ws[i], bags[i], EverythingOf(bags[i]), log)
    ensures forall i :: 0 <= i < |ws| ==> ws[i].bag == bags[i] && Fresh(ws[i], WholeEvents(bags, log)[i])
  {
    hide AllReadable, Selects, EverythingOf, EventsOf, Fresh, WholeEvents;
    forall i | 0 <= i < |ws|
      ensures ws[i].bag == bags[i] && Fresh(ws[i], EventsOf(EverythingOf(bags[i]), log))
    {
      assert bags[i] in bags;
      SelectsBag(ws[i], bags[i], EverythingOf(bags[i]), log);
      SelectedIsFresh(ws[i], bags[i], EverythingOf(bags[i]), log);
    }
  }

  /** A whole topic query over any number of bags.  Only the chunks that it selects are opened. */
  method Query(view: View, names: seq<string>, ghost log: Log)
    returns (out: seq<RosMessage>, stop: Stop, ghost picks: seq<nat>, ghost left: EventStreams)
    requires forall b :: b in view.bags ==> Indexable(b) && AllReadable(SelectionOf(b, names).chunks, log) && b.Memo()
    modifies view`bagWrappers, view.bags`messageSchemata
    ensures fresh(out)
    ensures Delivered(out, stop, picks, left, TopicEvents(Once(view.bags), names, log), Once(view.bags))
  {
    hide Indexable, AllReadable, Selects, SelectionOf, EventsOf, Fresh, Delivered, OnConnections, Deliveries, Bag.Memo,
      Bag.Linked, Once, TopicEvents;
    ghost var bags := Once(view.bags);
    ghost var es := TopicEvents(bags, names, log);
    OnceMeaning(view.bags);
    TopicsOnConnections(bags, names, log);
    view.GetMessages(names, log);
    SelectedAreFresh(view.bagWrappers, bags, names, log);
    assert forall i :: 0 <= i < |bags| ==> bags[i] in old(view.bags);
    assert forall w :: w in view.bagWrappers ==> fresh(w);
    out, stop, picks, left := Iterate(view, bags, es);
  }

  /** A whole query for all messages. */
  method QueryAll(view: View, ghost log: Log)
    returns (out: seq<RosMessage>, stop: Stop, ghost picks: seq<nat>, ghost left: EventStreams)
    requires forall b :: b in view.bags ==> AllReadable(EverythingOf(b).chunks, log) && b.Linked() && b.Memo()
    modifies view`bagWrappers, view.bags`messageSchemata
    ensures fresh(out)
    ensures Delivered(out, stop, picks, left, WholeEvents(Once(view.bags), log), Once(view.bags))
  {
    hide AllReadable, Selects, EverythingOf, EventsOf, Fresh, Delivered, OnConnections, Deliveries, Bag.Memo,
      Bag.Linked, Once, WholeEvents;
    ghost var bags := Once(view.bags);
    ghost var es := WholeEvents(bags, log);
    OnceMeaning(view.bags);
    AllOnConnections(bags, log);
    view.GetAllMessages(log);
    AllAreFresh(view.bagWrappers, bags, log);
    assert forall i :: 0 <= i < |bags| ==> bags[i] in old(view.bags);
    assert forall w :: w in view.bagWrappers ==> fresh(w);
    out, stop, picks, left := Iterate(view, bags, es);
  }

  /** When a loop has ended, nothing threw, every message of every stream has been delivered once, in the order of its
      bag, and the order of delivery is that of time iff each bag's is. */
  lemma EndedRun(out: seq<RosMessage>, picks: seq<nat>, left: EventStreams, es: EventStreams, bags: seq<Bag>)
    requires Delivered(out, Ended, picks, left, es, bags)
    ensures FullRun(Deliveries(es), picks)
    ensures forall j :: 0 <= j < |es| ==>
      es[j] == DeliverAll(Deliveries(es)[j]) && From(Output(Deliveries(es), picks), picks, j) == Deliveries(es)[j]
    ensures (forall i, j :: 0 <= i < j < |out| ==> !Later(out[i].timestamp, out[j].timestamp)) <==>
      AllSorted(Deliveries(es))
  {
    hide Output, From, Reaches, Later, AllSorted, Finished, Deliveries, FullRun, Quiet;
    var ms := Deliveries(es);
    FinishedIsFull(es, picks, left);
    assert |ms| == |es| by { DeliveriesLength(es); }
    forall j | 0 <= j < |es|
      ensures From(Output(ms, picks), picks, j) == ms[j]
    {
      FullRunDeliversAll(ms, picks, j);
    }
    FullRunSorted(ms, picks);
    forall i | 0 <= i < |out|
      ensures out[i].timestamp == Output(ms, picks)[i].timestamp
    {
      assert Delivers(out[i], Output(ms, picks)[i], bags[picks[i]]);
    }
  }

  lemma DeliveriesLength(es: EventStreams)
    ensures |Deliveries(es)| == |es|
  {
  }

  /** When a loop has been stopped by an exception of the scan, what was delivered is a run of the streams up to their
      throws, and the exception is that of the stream delivered from last, or one of the first events of all. */
  lemma ThrownRun(out: seq<RosMessage>, picks: seq<nat>, left: EventStreams, es: EventStreams, bags: seq<Bag>)
    requires Delivered(out, Thrown, picks, left, es, bags)
    ensures Run(Deliveries(es), picks, Deliveries(left))
    ensures picks == [] ==> !Quiet(es)
    ensures picks != [] ==>
      picks[|picks| - 1] < |left| && left[picks[|picks| - 1]] != [] && left[picks[|picks| - 1]][0] == Throw
  {
    hide Output, Reaches, Deliveries, Run, Finished, Quiet, Delivers;
    ReachesIsRun(es, picks, left);
    LastPickThrows(es, picks, left);
  }

  // ---------- Both queries compared ----------

  ghost function TopicStreams(bags: seq<Bag>, names: seq<string>, log: Log): (s: Streams)
    reads bags`topicConnectionMap, bags`chunks
    ensures |s| == |bags| && forall i :: 0 <= i < |bags| ==> s[i] == TopicStream(bags[i], names, log)
  {
    if bags == [] then [] else [TopicStream(bags[0], names, log)] + TopicStreams(bags[1..], names, log)
  }

  ghost function WholeBags(bags: seq<Bag>, log: Log): (s: Streams)
    reads bags`connections, bags`chunks
    ensures |s| == |bags| && forall i :: 0 <= i < |bags| ==> s[i] == WholeBag(bags[i], log)
  {
    if bags == [] then [] else [WholeBag(bags[0], log)] + WholeBags(bags[1..], log)
  }

  ghost function IdsOfBags(bags: seq<Bag>, names: seq<string>): (ids: seq<set<nat>>)
    reads bags`topicConnectionMap
    ensures |ids| == |bags| && forall i :: 0 <= i < |bags| ==> ids[i] == IdsOfTopics(names, bags[i].topicConnectionMap)
  {
    if bags == [] then [] else [IdsOfTopics(names, bags[0].topicConnectionMap)] + IdsOfBags(bags[1..], names)
  }

  lemma {:induction false} KeepKeep(ms: seq<Msg>, all: set<nat>, some: set<nat>)
    requires some <= all
    ensures Keep(Keep(ms, all), some) == Keep(ms, some)
  {
    hide Keep;
    if ms == [] {
      NothingToKeep(all);
      NothingToKeep(some);
    } else {
      var m, rest := ms[0], ms[1..];
      KeepKeep(rest, all, some);
      assert ms == [m] + rest;
      KeepCons(m, rest, all);
      KeepCons(m, rest, some);
      KeepCons(m, Keep(rest, all), some);
    }
  }

  /** The streams of a topic query are those of a query for everything, filtered. */
  lemma TopicStreamsAreFiltered(bags: seq<Bag>, names: seq<string>, log: Log)
    requires forall b :: b in bags ==> Indexable(b)
    ensures KeepAll(WholeBags(bags, log), IdsOfBags(bags, names)) == TopicStreams(bags, names, log)
  {
    hide Flat, Logs, Keep, AllChunks, Indexable;
    var all, ids := WholeBags(bags, log), IdsOfBags(bags, names);
    forall i | 0 <= i < |bags|
      ensures Keep(all[i], ids[i]) == TopicStream(bags[i], names, log)
    {
      assert bags[i] in bags && Indexable(bags[i]);
      TopicsAreConnections(bags[i], names);
      KeepKeep(Flat(Logs(AllChunks(bags[i].chunks), log)), AllIds(|bags[i].connections|), ids[i]);
    }
  }

  lemma TopicsAreConnections(bag: Bag, names: seq<string>)
    requires Indexable(bag)
    ensures IdsOfTopics(names, bag.topicConnectionMap) <= AllIds(|bag.connections|)
  {
    hide Select, GoodIndex;
    SelectIds(names, bag.connections, bag.topicConnectionMap, bag.chunks);
    SelectedAreConnections(bag, names);
  }

  /** With time-sorted bags, what a topic query can deliver is exactly what is left when something that a query for all
      messages can deliver is filtered by topic. */
  lemma TopicQueryIsFilteredQuery(bags: seq<Bag>, names: seq<string>, log: Log, filtered: seq<nat>)
    requires (forall b :: b in bags ==> Indexable(b)) && AllSorted(WholeBags(bags, log))
    ensures FullRun(TopicStreams(bags, names, log), filtered) <==>
      exists picks :: FullRun(WholeBags(bags, log), picks) &&
        KeepPicks(WholeBags(bags, log), picks, IdsOfBags(bags, names)) == filtered
  {
    hide FullRun, KeepPicks, KeepAll, AllSorted, WholeBag, TopicStream, Indexable, IdsOfTopics;
    TopicStreamsAreFiltered(bags, names, log);
    FilteredRunsAreRuns(WholeBags(bags, log), IdsOfBags(bags, names), filtered);
  }

  /** And the messages are the same ones. */
  lemma FilteredQueryIsTopicQuery(bags: seq<Bag>, names: seq<string>, log: Log, picks: seq<nat>)
    requires (forall b :: b in bags ==> Indexable(b)) && AllSorted(WholeBags(bags, log))
    requires FullRun(WholeBags(bags, log), picks)
    ensures
      var all, ids := WholeBags(bags, log), IdsOfBags(bags, names);
      Output(TopicStreams(bags, names, log), KeepPicks(all, picks, ids)) == KeepOutput(all, picks, ids)
  {
    hide Run, Output, AllSorted, KeepPicks, KeepOutput, WholeBag, TopicStream, Indexable, IdsOfTopics, Exhausted;
    var all, ids := WholeBags(bags, log), IdsOfBags(bags, names);
    TopicStreamsAreFiltered(bags, names, log);
    var t :| Exhausted(t) && Run(all, picks, t);
    FilteredRunIsRun(all, picks, t, ids);
  }
}
