/**
 * Which chunks and connections of a bag getMessages selects, and why reading only those chunks loses nothing.
 */
module Selecting {
  import opened Framing
  import opened BagTypes
  import opened BagIndex
  import opened Merge
  import opened Scan

  // ---------- std::set of chunks by offset ----------

  /** set::emplace: nothing happens when a chunk with the same offset is there. */
  function Emplace(cs: seq<Chunk>, c: Chunk): seq<Chunk> {
    if cs == [] || c.offset < cs[0].offset then [c] + cs
    else if c.offset == cs[0].offset then cs
    else [cs[0]] + Emplace(cs[1..], c)
  }

  predicate ByOffset(cs: seq<Chunk>) {
    forall i, j :: 0 <= i < j < |cs| ==> cs[i].offset < cs[j].offset
  }

  predicate DistinctOffsets(cs: seq<Chunk>) {
    forall i, j :: 0 <= i < j < |cs| ==> cs[i].offset != cs[j].offset
  }

  lemma TailIsOrdered(cs: seq<Chunk>)
    requires ByOffset(cs) && cs != []
    ensures ByOffset(cs[1..]) && forall x :: x in cs[1..] ==> cs[0].offset < x.offset
    ensures forall x :: x in cs <==> x == cs[0] || x in cs[1..]
  {
    assert cs == [cs[0]] + cs[1..];
    assert forall i :: 0 <= i < |cs| - 1 ==> cs[1..][i] == cs[i + 1];
  }

  lemma NothingIsOrdered()
    ensures ByOffset([])
  {
  }

  lemma ConsIsOrdered(c: Chunk, rest: seq<Chunk>)
    requires ByOffset(rest) && forall x :: x in rest ==> c.offset < x.offset
    ensures ByOffset([c] + rest)
  {
  }

  /** The set stays ordered, holds what it held, and holds c unless another chunk has its offset. */
  lemma {:induction false} EmplaceMeaning(cs: seq<Chunk>, c: Chunk)
    requires ByOffset(cs)
    ensures ByOffset(Emplace(cs, c))
    ensures forall x :: x in Emplace(cs, c) <==> x in cs || (x == c && forall y :: y in cs ==> y.offset != c.offset)
  {
    hide ByOffset;
    if cs == [] {
      ConsIsOrdered(c, []);
    } else {
      TailIsOrdered(cs);
      if c.offset < cs[0].offset {
        ConsIsOrdered(c, cs);
      } else if c.offset > cs[0].offset {
        EmplaceMeaning(cs[1..], c);
        ConsIsOrdered(cs[0], Emplace(cs[1..], c));
      }
    }
  }

  lemma BothEmpty(a: seq<Chunk>, b: seq<Chunk>)
    requires forall x :: x in a <==> x in b
    ensures a == [] <==> b == []
  {
    if a != [] {
      assert a[0] in a;
    }
    if b != [] {
      assert b[0] in b;
    }
  }

  /** Two ordered sets with the same chunks are the same. */
  lemma {:induction false} OrderedSetsEqual(a: seq<Chunk>, b: seq<Chunk>)
    requires ByOffset(a) && ByOffset(b)
    requires forall x :: x in a <==> x in b
    ensures a == b
  {
    BothEmpty(a, b);
    if a != [] {
      assert a[0] in a && a[0] in b;
      assert b[0] in b && b[0] in a;
      var i :| 0 <= i < |b| && b[i] == a[0];
      var j :| 0 <= j < |a| && a[j] == b[0];
      assert i == 0 && j == 0;
      var a', b' := a[1..], b[1..];
      assert a == [a[0]] + a' && b == [b[0]] + b';
      assert a[0] !in a' && b[0] !in b';
      forall x
        ensures x in a' <==> x in b'
      {
        assert x in a <==> x == a[0] || x in a';
        assert x in b <==> x == b[0] || x in b';
      }
      OrderedSetsEqual(a', b');
    }
  }

  lemma {:induction false} RestrictIsOrdered(cs: seq<Chunk>, selected: set<Chunk>)
    requires ByOffset(cs)
    ensures ByOffset(Restrict(cs, selected))
    ensures forall x :: x in Restrict(cs, selected) <==> x in cs && x in selected
  {
    hide ByOffset;
    if cs == [] {
      NothingIsOrdered();
    } else {
      TailIsOrdered(cs);
      var rest := Restrict(cs[1..], selected);
      RestrictIsOrdered(cs[1..], selected);
      ConsIsOrdered(cs[0], rest);
      assert Restrict(cs, selected) == if cs[0] in selected then [cs[0]] + rest else rest;
    }
  }

  // ---------- The selection ----------

  datatype Selection = Selection(chunks: seq<Chunk>, ids: set<nat>)

  /** The blocks refer to existing chunks. */
  predicate BlocksInside(blocks: seq<IndexBlock>, n: nat) {
    forall i :: 0 <= i < |blocks| ==> blocks[i].intoChunk < n
  }

  /** The listed connections exist, and their blocks refer to existing chunks. */
  predicate ConnectionsInside(cs: seq<nat>, table: Connections, n: nat) {
    forall i :: 0 <= i < |cs| ==> cs[i] < |table| && BlocksInside(table[cs[i]].blocks, n)
  }

  /** The listed connections know their numbers. */
  predicate KnowNumbers(cs: seq<nat>, table: Connections) {
    forall i :: 0 <= i < |cs| ==> cs[i] < |table| && table[cs[i]].id == cs[i]
  }

  /** Blocks refer to existing chunks and topics to existing connections, each of which knows its number. */
  predicate GoodIndex(table: Connections, topics: TopicMap, chunks: seq<Chunk>) {
    && (forall c :: 0 <= c < |table| ==> BlocksInside(table[c].blocks, |chunks|))
    && forall t :: t in topics ==> KnowNumbers(topics[t], table)
  }

  lemma TopicsAreInside(table: Connections, topics: TopicMap, chunks: seq<Chunk>, t: string)
    requires GoodIndex(table, topics, chunks) && t in topics
    ensures ConnectionsInside(topics[t], table, |chunks|) && KnowNumbers(topics[t], table)
  {
    hide BlocksInside;
  }

  function AddBlocks(cs: seq<Chunk>, blocks: seq<IndexBlock>, chunks: seq<Chunk>): seq<Chunk>
    requires BlocksInside(blocks, |chunks|)
  {
    if blocks == [] then cs else
      var n := |blocks| - 1;
      Emplace(AddBlocks(cs, blocks[..n], chunks), chunks[blocks[n].intoChunk])
  }

  function AddConnections(s: Selection, cs: seq<nat>, table: Connections, chunks: seq<Chunk>): Selection
    requires ConnectionsInside(cs, table, |chunks|)
  {
    if cs == [] then s else
      var n := |cs| - 1;
      var before := AddConnections(s, cs[..n], table, chunks);
      Selection(AddBlocks(before.chunks, table[cs[n]].blocks, chunks), before.ids + {table[cs[n]].id})
  }

  /** getMessages(topics) for one bag. */
  function Select(names: seq<string>, table: Connections, topics: TopicMap, chunks: seq<Chunk>): Selection
    requires GoodIndex(table, topics, chunks)
  {
    if names == [] then Selection([], {}) else
      var before, t := Select(names[..|names| - 1], table, topics, chunks), names[|names| - 1];
      if t in topics then
        TopicsAreInside(table, topics, chunks, t);
        AddConnections(before, topics[t], table, chunks)
      else before
  }

  /** getMessages() for one bag: every chunk and every connection number. */
  function AllChunks(chunks: seq<Chunk>): seq<Chunk> {
    if chunks == [] then [] else Emplace(AllChunks(chunks[..|chunks| - 1]), chunks[|chunks| - 1])
  }

  function AllIds(n: nat): (ids: set<nat>)
    ensures forall i: nat :: i in ids <==> i < n
  {
    if n == 0 then {} else AllIds(n - 1) + {n - 1}
  }

  lemma {:induction false} AllChunksMeaning(chunks: seq<Chunk>)
    requires DistinctOffsets(chunks)
    ensures ByOffset(AllChunks(chunks)) && forall x :: x in AllChunks(chunks) <==> x in chunks
  {
    if chunks != [] {
      var k := |chunks| - 1;
      AllChunksMeaning(chunks[..k]);
      EmplaceMeaning(AllChunks(chunks[..k]), chunks[k]);
      assert chunks == chunks[..k] + [chunks[k]];
    }
  }

  /** The ids of a selection grow by the listed connections. */
  lemma {:induction false} AddConnectionsIds(s: Selection, cs: seq<nat>, table: Connections, chunks: seq<Chunk>)
    requires ConnectionsInside(cs, table, |chunks|) && KnowNumbers(cs, table)
    ensures forall c :: c in AddConnections(s, cs, table, chunks).ids <==> c in s.ids || c in cs
  {
    hide AddBlocks, BlocksInside;
    if cs != [] {
      var n := |cs| - 1;
      AddConnectionsIds(s, cs[..n], table, chunks);
      assert cs == cs[..n] + [cs[n]];
    }
  }

  /** The connections of some topics. */
  function IdsOfTopics(names: seq<string>, topics: TopicMap): set<nat> {
    set t, c | t in names && t in topics && c in topics[t] :: c
  }

  lemma IdsOfTopicsSnoc(names: seq<string>, topics: TopicMap)
    requires names != []
    ensures
      var before, t := names[..|names| - 1], names[|names| - 1];
      IdsOfTopics(names, topics) == IdsOfTopics(before, topics) + (if t in topics then (set c | c in topics[t]) else {})
  {
    var before, t := names[..|names| - 1], names[|names| - 1];
    assert names == before + [t];
  }

  /** Exactly the connections of the named topics are selected. */
  lemma {:induction false} SelectIds(names: seq<string>, table: Connections, topics: TopicMap, chunks: seq<Chunk>)
    requires GoodIndex(table, topics, chunks)
    ensures Select(names, table, topics, chunks).ids == IdsOfTopics(names, topics)
  {
    hide AddConnections, IdsOfTopics, GoodIndex;
    if names == [] {
      NoTopics(topics);
    } else {
      var before, t := names[..|names| - 1], names[|names| - 1];
      SelectIds(before, table, topics, chunks);
      IdsOfTopicsSnoc(names, topics);
      if t in topics {
        TopicsAreInside(table, topics, chunks, t);
        AddConnectionsIds(Select(before, table, topics, chunks), topics[t], table, chunks);
      }
    }
  }

  lemma NoTopics(topics: TopicMap)
    ensures IdsOfTopics([], topics) == {}
  {
  }

  /** One of the blocks refers to chunk x. */
  predicate RefersTo(blocks: seq<IndexBlock>, chunks: seq<Chunk>, x: Chunk) {
    exists b :: b in blocks && b.intoChunk < |chunks| && chunks[b.intoChunk] == x
  }

  /** One of the connections refers to chunk x. */
  predicate Wanted(ids: set<nat>, table: Connections, chunks: seq<Chunk>, x: Chunk) {
    exists c :: c in ids && c < |table| && RefersTo(table[c].blocks, chunks, x)
  }

  lemma {:induction false} EmplaceAddsOnly(cs: seq<Chunk>, c: Chunk, x: Chunk)
    requires x in Emplace(cs, c)
    ensures x in cs || x == c
  {
    if cs != [] && c.offset > cs[0].offset && x != cs[0] {
      EmplaceAddsOnly(cs[1..], c, x);
    }
  }

  lemma {:induction false} AddBlocksOnly(cs: seq<Chunk>, blocks: seq<IndexBlock>, chunks: seq<Chunk>, x: Chunk)
    requires BlocksInside(blocks, |chunks|)
    requires x in AddBlocks(cs, blocks, chunks)
    ensures x in cs || RefersTo(blocks, chunks, x)
  {
    hide Emplace;
    if blocks != [] {
      var before, last := blocks[..|blocks| - 1], blocks[|blocks| - 1];
      EmplaceAddsOnly(AddBlocks(cs, before, chunks), chunks[last.intoChunk], x);
      if x in AddBlocks(cs, before, chunks) {
        AddBlocksOnly(cs, before, chunks, x);
      } else {
        assert last in blocks;
      }
    }
  }

  lemma {:induction false} AddConnectionsOnly(s: Selection, cs: seq<nat>, table: Connections, chunks: seq<Chunk>,
        x: Chunk)
    requires ConnectionsInside(cs, table, |chunks|) && KnowNumbers(cs, table)
    requires x in AddConnections(s, cs, table, chunks).chunks
    ensures x in s.chunks || Wanted(AddConnections(s, cs, table, chunks).ids, table, chunks, x)
  {
    hide AddBlocks, RefersTo, BlocksInside;
    if cs != [] {
      var n := |cs| - 1;
      var before := AddConnections(s, cs[..n], table, chunks);
      AddBlocksOnly(before.chunks, table[cs[n]].blocks, chunks, x);
      AddConnectionsIds(s, cs, table, chunks);
      AddConnectionsIds(s, cs[..n], table, chunks);
      assert cs == cs[..n] + [cs[n]];
      if x in before.chunks {
        AddConnectionsOnly(s, cs[..n], table, chunks, x);
      }
    }
  }

  /** No chunk is selected that no selected connection refers to. */
  lemma {:induction false} SelectOnly(names: seq<string>, table: Connections, topics: TopicMap, chunks: seq<Chunk>,
        x: Chunk)
    requires GoodIndex(table, topics, chunks) && x in Select(names, table, topics, chunks).chunks
    ensures Wanted(Select(names, table, topics, chunks).ids, table, chunks, x)
  {
    hide AddConnections, RefersTo, GoodIndex;
    if names != [] {
      var before, t := names[..|names| - 1], names[|names| - 1];
      var s := Select(before, table, topics, chunks);
      if t in topics {
        TopicsAreInside(table, topics, chunks, t);
        AddConnectionsOnly(s, topics[t], table, chunks, x);
        AddConnectionsIds(s, topics[t], table, chunks);
      }
      if x in s.chunks {
        SelectOnly(before, table, topics, chunks, x);
      }
    }
  }

  /** All chunks that the blocks refer to. */
  predicate HasBlocks(cs: seq<Chunk>, blocks: seq<IndexBlock>, chunks: seq<Chunk>)
    requires BlocksInside(blocks, |chunks|)
  {
    forall i :: 0 <= i < |blocks| ==> chunks[blocks[i].intoChunk] in cs
  }

  /** An ordered part of the chunks that holds, for each selected connection, every chunk it refers to. */
  predicate Covers(s: Selection, table: Connections, chunks: seq<Chunk>) {
    && ByOffset(s.chunks) && (forall x :: x in s.chunks ==> x in chunks)
    && forall c :: c in s.ids ==>
      c < |table| && BlocksInside(table[c].blocks, |chunks|) && HasBlocks(s.chunks, table[c].blocks, chunks)
  }

  lemma OffsetsDecide(chunks: seq<Chunk>, x: Chunk, y: Chunk)
    requires DistinctOffsets(chunks) && x in chunks && y in chunks && x.offset == y.offset
    ensures x == y
  {
    var i :| 0 <= i < |chunks| && chunks[i] == x;
    var j :| 0 <= j < |chunks| && chunks[j] == y;
  }

  lemma {:induction false} AddBlocksCovers(cs: seq<Chunk>, blocks: seq<IndexBlock>, chunks: seq<Chunk>)
    requires BlocksInside(blocks, |chunks|)
    requires DistinctOffsets(chunks) && ByOffset(cs) && forall x :: x in cs ==> x in chunks
    ensures
      var r := AddBlocks(cs, blocks, chunks);
      ByOffset(r) && (forall x :: x in r ==> x in chunks) && (forall x :: x in cs ==> x in r) &&
        HasBlocks(r, blocks, chunks)
  {
    hide Emplace, ByOffset, DistinctOffsets;
    if blocks != [] {
      var n := |blocks| - 1;
      AddBlocksCovers(cs, blocks[..n], chunks);
      var before, c := AddBlocks(cs, blocks[..n], chunks), chunks[blocks[n].intoChunk];
      EmplaceMeaning(before, c);
      forall y | y in before && y.offset == c.offset
        ensures y == c
      {
        OffsetsDecide(chunks, y, c);
      }
      assert HasBlocks(before, blocks[..n], chunks);
      assert forall i :: 0 <= i < n ==> blocks[..n][i] == blocks[i];
    }
  }

  lemma MoreBlocks(a: seq<Chunk>, b: seq<Chunk>, blocks: seq<IndexBlock>, chunks: seq<Chunk>)
    requires BlocksInside(blocks, |chunks|) && HasBlocks(a, blocks, chunks) && forall x :: x in a ==> x in b
    ensures HasBlocks(b, blocks, chunks)
  {
  }

  lemma {:induction false} AddConnectionsCovers(s: Selection, cs: seq<nat>, table: Connections, chunks: seq<Chunk>)
    requires ConnectionsInside(cs, table, |chunks|) && KnowNumbers(cs, table)
    requires DistinctOffsets(chunks) && Covers(s, table, chunks)
    ensures Covers(AddConnections(s, cs, table, chunks), table, chunks)
  {
    hide AddBlocks, ByOffset, DistinctOffsets, HasBlocks, BlocksInside;
    if cs != [] {
      var n := |cs| - 1;
      AddConnectionsCovers(s, cs[..n], table, chunks);
      var before, after := AddConnections(s, cs[..n], table, chunks), AddConnections(s, cs, table, chunks);
      AddBlocksCovers(before.chunks, table[cs[n]].blocks, chunks);
      forall c | c in after.ids
        ensures c < |table| && BlocksInside(table[c].blocks, |chunks|) &&
          HasBlocks(after.chunks, table[c].blocks, chunks)
      {
        if c != cs[n] {
          MoreBlocks(before.chunks, after.chunks, table[c].blocks, chunks);
        }
      }
    }
  }

  /** The selection covers its connections. */
  lemma {:induction false} SelectCovers(names: seq<string>, table: Connections, topics: TopicMap, chunks: seq<Chunk>)
    requires GoodIndex(table, topics, chunks) && DistinctOffsets(chunks)
    ensures Covers(Select(names, table, topics, chunks), table, chunks)
  {
    hide AddConnections, GoodIndex, DistinctOffsets;
    if names != [] {
      var before, t := names[..|names| - 1], names[|names| - 1];
      SelectCovers(before, table, topics, chunks);
      if t in topics {
        TopicsAreInside(table, topics, chunks, t);
        AddConnectionsCovers(Select(before, table, topics, chunks), topics[t], table, chunks);
      }
    }
  }

  // ---------- Pruning ----------

  /** An INDEX_DATA record for one of the connections refers to chunk i. */
  predicate Indexed(table: Connections, ids: set<nat>, i: nat) {
    exists c :: c in ids && c < |table| && IndexBlock(i) in table[c].blocks
  }

  /** The records hold a message on one of the connections. */
  predicate HasMessage(rs: seq<Record>, ids: set<nat>) {
    exists m :: m in MessagesOf(rs) && m.connectionId in ids
  }

  /** Every chunk with a message on one of the connections is indexed for one of them. */
  predicate IndexComplete(table: Connections, chunks: seq<Chunk>, log: Log, ids: set<nat>) {
    forall i :: 0 <= i < |chunks| && HasMessage(log(chunks[i]), ids) ==> Indexed(table, ids, i)
  }

  lemma {:induction false} KeepNothing(ms: seq<Msg>, ids: set<nat>)
    ensures Keep(ms, ids) == [] <==> forall m :: m in ms ==> m.connectionId !in ids
  {
    if ms != [] {
      assert ms == [ms[0]] + ms[1..];
      KeepNothing(ms[1..], ids);
    }
  }

  /** With different offsets a chunk is selected iff it is indexed for a selected connection. */
  lemma SelectedIffIndexed(names: seq<string>, table: Connections, topics: TopicMap, chunks: seq<Chunk>, i: nat)
    requires GoodIndex(table, topics, chunks) && DistinctOffsets(chunks) && i < |chunks|
    ensures
      var s := Select(names, table, topics, chunks);
      chunks[i] in s.chunks <==> Indexed(table, s.ids, i)
  {
    hide Select, GoodIndex, ByOffset;
    var s := Select(names, table, topics, chunks);
    SelectCovers(names, table, topics, chunks);
    if chunks[i] in s.chunks {
      SelectOnly(names, table, topics, chunks, chunks[i]);
      var c :| c in s.ids && c < |table| && RefersTo(table[c].blocks, chunks, chunks[i]);
      var b :| b in table[c].blocks && b.intoChunk < |chunks| && chunks[b.intoChunk] == chunks[i];
      assert b == IndexBlock(i);
    }
    if Indexed(table, s.ids, i) {
      var c :| c in s.ids && c < |table| && IndexBlock(i) in table[c].blocks;
      var k :| 0 <= k < |table[c].blocks| && table[c].blocks[k] == IndexBlock(i);
      assert chunks[table[c].blocks[k].intoChunk] in s.chunks;
    }
  }

  lemma EmptyKept(log: Log, c: Chunk, ids: set<nat>)
    ensures Keep(MessagesOf(log(c)), ids) == [] <==> !HasMessage(log(c), ids)
  {
    KeepNothing(MessagesOf(log(c)), ids);
  }

  /** Scanning only the chunks that the index gives for some topics brings the same messages, in the same order, as
      scanning all chunks and keeping the messages on those topics, iff the index is complete for them. */
  lemma SelectionLosesNothing(names: seq<string>, table: Connections, topics: TopicMap, chunks: seq<Chunk>, log: Log)
    requires GoodIndex(table, topics, chunks) && DistinctOffsets(chunks)
    ensures
      var s := Select(names, table, topics, chunks);
      Keep(Flat(Logs(s.chunks, log)), s.ids) == Keep(Flat(Logs(AllChunks(chunks), log)), s.ids) <==>
        IndexComplete(table, chunks, log, s.ids)
  {
    hide Select, AllChunks, Restrict, Keep, Flat, Logs, MessagesOf, ByOffset, DistinctOffsets, GoodIndex, HasMessage,
      Indexed;
    var s := Select(names, table, topics, chunks);
    var all := AllChunks(chunks);
    var selected := set c | c in s.chunks;
    SelectCovers(names, table, topics, chunks);
    AllChunksMeaning(chunks);
    RestrictIsOrdered(all, selected);
    OrderedSetsEqual(s.chunks, Restrict(all, selected));
    PruningIsExact(all, selected, log, s.ids);
    forall i: nat | i < |chunks|
      ensures chunks[i] in selected <==> Indexed(table, s.ids, i)
      ensures Keep(MessagesOf(log(chunks[i])), s.ids) == [] <==> !HasMessage(log(chunks[i]), s.ids)
    {
      SelectedIffIndexed(names, table, topics, chunks, i);
      EmptyKept(log, chunks[i], s.ids);
    }
    if IndexComplete(table, chunks, log, s.ids) {
      forall k | 0 <= k < |all| && all[k] !in selected
        ensures Keep(MessagesOf(log(all[k])), s.ids) == []
      {
        assert all[k] in chunks;
        var i: nat :| i < |chunks| && chunks[i] == all[k];
      }
    }
    if forall k :: 0 <= k < |all| && all[k] !in selected ==> Keep(MessagesOf(log(all[k])), s.ids) == [] {
      forall i: nat | i < |chunks| && HasMessage(log(chunks[i]), s.ids)
        ensures Indexed(table, s.ids, i)
      {
        assert chunks[i] in all;
        var k :| 0 <= k < |all| && all[k] == chunks[i];
      }
    }
  }
}
